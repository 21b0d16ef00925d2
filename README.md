# Access-log analyser, modelled in Dafny

The analyser reads a web-server access log with one request per line:

```
1.1.1.1 - - [10/Oct/2020:13:55:36 -0700] "GET /index.html HTTP/1.1" 200 1024 "optional message"
```

The same engine exists twice:
- the command-line script `log_analysis.py`;
- the dashboard helper class `LogAnalyzer` in `Streamlit_APP/utils.py`.

Each version validates a file, parses the lines that match its pattern into records, and runs three analyses:
- requests per IP address, most first;
- the most frequently requested endpoint;
- a brute-force report of the IP addresses with more than 10 failed logins (status `401`).

The project models the engine as follows.

**Two patterns.** The two files use different line patterns, modelled as two dialects of one grammar:
- `Script` (`log_analysis.py`): the timestamp is `[^\]]+` and the message is `[^"]*`.
- `Dashboard` (`utils.py`): the timestamp and the message are the lazy `.*?`. The timestamp may be empty and is the shortest one for which the rest of the line still matches. The message may contain quotes.

`Grammar.Matches` is the specification of a match. `Recogniser.Recognise` is an executable recogniser proved equal to it: it returns `Some(r)` exactly when `r` is what `re.match` captures.

**Validators and parsers.** These are the loops of the source, written as methods.
- The parsers are proved against `Extraction.Extracted`: the records of the matching stripped lines, in order.
- The strict validator is proved against `Grammar.Conforms`.
- The lenient validator is proved against an IP-substring check plus a `"`-verb check. Its verb list keeps the misspelled `DLETE` exactly as written.

**Analyses.** The pandas chains are functions on sequences, in module `Analytics`. The `value_counts` step inside each chain is proved to meet its promises: each key once, with its exact count, the counts summing to the number of rows, largest first. On top of that, the request table is exactly that table, the top endpoint is an endpoint whose count no other endpoint exceeds, and the brute-force report is the entries of the failed-login table above the threshold, still distinct, exact and largest first. Ties come out in first-appearance order, but every property is stated so that it holds whatever the order of ties.

**Naming.** The regular expression's `method` group is the record field `verb`, because `method` is a Dafny keyword.

Files, in dependency order:

| file | module | content |
|---|---|---|
| wrappers.dfy | Wrappers | `Option` and `Result` |
| text.dfy | Text | character classes, greedy runs, literals, `str.strip()` |
| grammar.dfy | Grammar | the record, the line layout, the match specification |
| recogniser.dfy | Recogniser | the executable recogniser and its exactness proofs |
| extraction.dfy | Extraction | what a parser keeps from a file |
| analytics.dfy | Analytics | counting, sorting, the three analyses |
| log_analysis.dfy | LogAnalysis | `log_analysis.py`: lenient validator, parser, threshold |
| log_analyzer.dfy | LogAnalyzer | `utils.py`: strict validator, parser, threshold |

## Model

| member | source | states |
|---|---|---|
| Text.Strip | log_analysis.py:52 | `line.strip()`; what it removes and keeps is stated by Text.StripTrims, Text.StripEnds and Text.StripBlank |
| Text.StripTrims | log_analysis.py:52 | `strip()` removes only whitespace, and only from the two ends: the line is some blank text, then the stripped text, then some blank text |
| Text.StripEnds | Streamlit_APP/utils.py:32 | the stripped text neither starts nor ends with whitespace |
| Text.StripBlank | Streamlit_APP/utils.py:32 | a line of whitespace only strips to the empty string |
| Text.StripStartCuts | Streamlit_APP/utils.py:62 | the left strip drops a blank prefix and leaves text that does not start with a blank |
| Text.StripEndCuts | Streamlit_APP/utils.py:62 | the right strip drops a blank suffix and leaves text that does not end with a blank |
| Grammar.Matches | log_analysis.py:42-49 | the two patterns (also `Streamlit_APP/utils.py` lines 21-28) as a specification of the record `re.match` captures; its consequences are stated by Grammar.MatchShape, Recogniser.MatchIsUnique and Recogniser.RecogniseExact |
| Grammar.Conforms | Streamlit_APP/utils.py:32 | whether `re.match` succeeds on a stripped line; Recogniser.ConformsIff ties it to the recogniser |
| Grammar.LayoutLast | log_analysis.py:48 | a line of the pattern ends in the last digit of the size when there is no message, and in the closing quote when there is one |
| Grammar.MatchShape | log_analysis.py:43-48 | every captured field has its group's shape: the IP is four digit groups, the verb is uppercase, the endpoint starts with `/` and has no space, status and size are digits; the message is absent exactly when the line ends in a digit |
| Grammar.EmptyLineNeverConforms | Streamlit_APP/utils.py:21-28 | the empty line matches neither pattern |
| Recogniser.Recognise | log_analysis.py:52 | `re.match(log_pattern, line.strip())` as an executable scan (also `Streamlit_APP/utils.py` lines 32 and 62); Recogniser.RecogniseExact states that it returns exactly the match |
| Recogniser.ScanIp | log_analysis.py:43 | what the scanner returns is an IP address followed by the rest of the text |
| Recogniser.ScanIpOf | log_analysis.py:43 | an IP address followed by a non-digit is scanned as exactly that address |
| Recogniser.ScanIpFinds | log_analysis.py:21 | an IP address at the front of the text is always found, whatever follows it |
| Recogniser.StampedScriptSound | log_analysis.py:45 | the Script timestamp found is a non-empty run without `]`, and the rest of the line is a well-formed request |
| Recogniser.StampedScriptComplete | log_analysis.py:45 | a non-empty `]`-free timestamp followed by a well-formed request is found as exactly that pair |
| Recogniser.ShortestFirst | Streamlit_APP/utils.py:24 | the rest of the pattern matches at no position before the one the lazy search returns |
| Recogniser.ShortestFinds | Streamlit_APP/utils.py:24 | if the rest matches at `n`, at no earlier position, and no newline comes before `n`, the lazy search returns `n` |
| Recogniser.StampedDashboardSound | Streamlit_APP/utils.py:24 | the Dashboard timestamp found has no newline, and the rest of the line is a well-formed request |
| Recogniser.StampedDashboardComplete | Streamlit_APP/utils.py:24 | a timestamp that no shorter reading of the line beats is found, together with its request |
| Recogniser.RecogniseSound | log_analysis.py:42-49 | whatever the recogniser returns is a reading of the line by the pattern |
| Recogniser.RecogniseComplete | Streamlit_APP/utils.py:21-28 | every reading of the line is what the recogniser returns; for Dashboard, only the reading with the shortest timestamp is |
| Recogniser.RecogniseMinimal | Streamlit_APP/utils.py:24 | no reading of the line has a shorter timestamp than the one the recogniser returns |
| Recogniser.RecogniseExact | log_analysis.py:52 | the recogniser returns `Some(r)` if and only if `r` is the match of the line |
| Recogniser.MatchIsUnique | Streamlit_APP/utils.py:51-57 | a line has at most one match |
| Recogniser.ConformsIff | Streamlit_APP/utils.py:32 | a line matches the pattern exactly when the recogniser returns a record |
| Recogniser.NoNewlineInFields | Streamlit_APP/utils.py:24 | a line without newlines has none in its timestamp or message |
| Recogniser.ScriptMatchIsShortest | log_analysis.py:45 | a `]`-free timestamp is never longer than another reading's timestamp, so a Script match that the Dashboard pattern can read is the Dashboard match |
| Recogniser.ScriptMatchIsDashboardMatch | Streamlit_APP/utils.py:51-57 | on a line without newlines, whatever the script's pattern captures the dashboard's pattern captures too |
| Recogniser.SampleRecognised | log_analysis.py:42-49 | both patterns read the sample line `1.1.1.1 - - [10/Oct/2020:13:55:36 -0700] "GET /index.html HTTP/1.1" 200 1024` as the same record, with no message |
| Extraction.Extracted | log_analysis.py:50-54 | what a parser's loop appends (also `Streamlit_APP/utils.py` lines 60-64); stated by Extraction.OneRecordPerMatchingLine, Extraction.AllLinesMatch and Extraction.NoLineMatches |
| Extraction.CollectJoin | log_analysis.py:50-54 | what a parser keeps from two files joined is what it keeps from the first, then from the second |
| Extraction.PickedLines | log_analysis.py:53 | the kept line numbers are in range, strictly increasing, and a line is kept exactly when it gives a value |
| Extraction.CollectFollowsLines | log_analysis.py:50-54 | the k-th kept value is the one the k-th kept line gives, and there is one per kept line |
| Extraction.CollectAll | Streamlit_APP/utils.py:60-64 | when every line gives a value, the k-th kept value is the k-th line's |
| Extraction.CollectNone | log_analysis.py:56-58 | when no line gives a value, nothing is kept |
| Extraction.OneRecordPerMatchingLine | log_analysis.py:50-54 | exactly one record per line whose stripped text matches, in line order, each the match of its line |
| Extraction.AllLinesMatch | Streamlit_APP/utils.py:60-64 | when every stripped line matches, there is one record per line, each the match of its line |
| Extraction.NoLineMatches | log_analysis.py:56-58 | no matching line gives an empty result, not an error |
| Extraction.ExtractedShapes | log_analysis.py:43-48 | every parsed record has the field shapes of its pattern |
| Analytics.Tally | log_analysis.py:73 | the counting half of `value_counts()`; Analytics.TallyFacts states its counts |
| Analytics.SortByCount | log_analysis.py:73 | the ordering half of `value_counts()`; stated by Analytics.SortPermutes, Analytics.SortSorted and Analytics.SortDistinct |
| Analytics.TallyFacts | log_analysis.py:73 | the tally lists every value once, with its number of occurrences, and its counts sum to the number of rows |
| Analytics.SortPermutes | log_analysis.py:73 | sorting by count keeps the same entries, keys and total |
| Analytics.SortSorted | log_analysis.py:73 | sorting puts the largest counts first |
| Analytics.SortDistinct | log_analysis.py:73 | sorting never introduces a repeated key |
| Analytics.CountTableOf | log_analysis.py:73 | the sorted tally of a column meets every promise of `value_counts()` |
| Analytics.TablesAgree | log_analysis.py:73 | any two tables meeting those promises hold the same entries, so the results depend only on the order of ties |
| Analytics.CountSortReqIp | log_analysis.py:73-75 | each IP address once, with its number of requests; the counts sum to the number of records and never increase; no records is the `KeyError` for column `ip`; `Streamlit_APP/utils.py` lines 79-81 run the same chain |
| Analytics.TopIsMost | log_analysis.py:89-90 | the first entry of a count table has the largest count of any value |
| Analytics.MostFrequentEndpoint | log_analysis.py:89-90 | an endpoint that occurs in the records, with its exact count, and no endpoint occurs more often; no records is the `KeyError` for column `endpoint`; `Streamlit_APP/utils.py` lines 94-95 run the same chain |
| Analytics.Failed | log_analysis.py:104 | `df[df['status'] == '401']`; Analytics.Exact401Counts and Analytics.OnlyExact401Counts together fix every address's failed-login count, record by record |
| Analytics.Keep | log_analysis.py:106 | `flagged_ips[flagged_ips > FAILED_LOGIN_THRESHOLD]`; stated by Analytics.KeepMembers, Analytics.KeepDistinct and Analytics.KeepSorted |
| Analytics.KeepMembers | log_analysis.py:106 | the filter keeps exactly the entries whose count is strictly above the threshold |
| Analytics.KeepDistinct | log_analysis.py:106 | filtering never introduces a repeated key |
| Analytics.KeepSorted | log_analysis.py:106 | filtering keeps the largest-first order |
| Analytics.Flagged | log_analysis.py:104-106 | the failed logins per address above the threshold; Analytics.FlaggedTable states the report |
| Analytics.FlaggedTable | log_analysis.py:104-106 | the report has one entry per IP address with more failed logins than the threshold, carrying that number, largest first |
| Analytics.DetectSuspiciousActivity | log_analysis.py:104-108 | the report is exactly the IP addresses with more than `threshold` records of status `"401"`, each with that count, largest first; no records is the `KeyError` for column `status` |
| Analytics.ThresholdMonotone | log_analysis.py:106 | raising the threshold never adds an entry |
| Analytics.OnlyExact401Counts | log_analysis.py:104 | a record whose status is not exactly the text `401` (`0401`, say) changes no failed-login count |
| Analytics.Exact401Counts | log_analysis.py:104 | a record with status `401` adds one failed login to its IP address and leaves every other address's count unchanged |
| Analytics.RepeatedFailures | log_analysis.py:104-105 | `n` failed logins from one address count as `n` |
| LogAnalysis.HasIp | log_analysis.py:21 | the IP `re.search` as a specification: some substring is an IP address; LogAnalysis.SearchIpIff ties it to the search |
| LogAnalysis.SearchIpIff | log_analysis.py:21 | the search over every starting position finds an IP address exactly when the line holds one |
| LogAnalysis.FindIp | log_analysis.py:21 | the IP check answers whether the line holds an IP address anywhere |
| LogAnalysis.HasVerb | log_analysis.py:24 | the verb `re.search`: some `"` is directly followed by one of the listed verbs, misspelled `DLETE` included; LogAnalysis.DeleteAndPatchRejected shows the misspelling's effect and LogAnalysis.ValidateLogFile uses it |
| LogAnalysis.ValidateLogFile | log_analysis.py:18-28 | true exactly when every line (not stripped) holds an IP address and a `"` directly followed by one of `GET POST PUT DLETE OPTIONS HEAD`; the empty file is valid |
| LogAnalysis.DeleteAndPatchRejected | log_analysis.py:24 | a line whose every `"` is followed by `DELETE` or `PATCH` fails the verb check |
| LogAnalysis.ParseLogFile | log_analysis.py:50-60 | the records of the lines whose stripped text matches the script's pattern, in line order; the empty list when none does |
| LogAnalysis.DetectSuspiciousActivity | log_analysis.py:104-108 | with the script's threshold, an address is reported exactly when it has more than 10 failed logins, once, with that count, largest first; no records is the `KeyError` for column `status` |
| LogAnalysis.ThresholdIsStrict | log_analysis.py:106 | 10 failed logins are not reported, 11 are |
| LogAnalysis.BruteForceReported | log_analysis.py:15 | fifteen failed logins from one address are reported with count 15; ten are not reported |
| LogAnalyzer.MatchLine | Streamlit_APP/utils.py:32 | the check on a line is whether its stripped text matches the dashboard's pattern |
| LogAnalyzer.ValidateLogFile | Streamlit_APP/utils.py:29-37 | false for a missing file; otherwise true exactly when every stripped line matches the pattern in full, so the empty file is valid |
| LogAnalyzer.BlankLineFails | Streamlit_APP/utils.py:32-33 | a whitespace-only line never passes the check, so it makes the file invalid |
| LogAnalyzer.ParseLogFileToDataframe | Streamlit_APP/utils.py:60-66 | the records of the lines whose stripped text matches the dashboard's pattern, in line order |
| LogAnalyzer.ValidatedFileParsesEveryLine | Streamlit_APP/utils.py:29-34 | a file that passes validation parses into one record per line, each the match of its line |
| LogAnalyzer.DetectSuspiciousActivity | Streamlit_APP/utils.py:108-112 | with the class's threshold, an address is reported exactly when it has more than 10 failed logins, once, with that count, largest first; no records is the `KeyError` for column `status` |
| LogAnalyzer.BruteForceReported | Streamlit_APP/utils.py:8 | fifteen failed logins from one address are reported with count 15; ten are not reported |

## Left out

- Opening and reading files. A file is the sequence of its lines. In `LogAnalyzer.ValidateLogFile`, a missing file is `None`. The `FileNotFoundError` that the other three readers let escape is not modelled.
- Other errors while opening or reading a file, such as `PermissionError`, `IsADirectoryError` or a `UnicodeDecodeError` in the middle of the file. All four readers let them escape, and the model has no such outcome.
- All `print` diagnostics, including which check a line failed in `log_analysis.py`.
- `save_results_to_csv` and `main` of `log_analysis.py`, and `Streamlit_APP/app.py`. They are CSV output, console output and the web interface.
- LogAnalysis.ValidateLogFile: the contract gives only the verdict. The loop does stop at the first failing line, but a boolean result cannot show that later lines went unread. The same holds for LogAnalyzer.ValidateLogFile.
- Unicode. `\d` is the ASCII digits and `strip()` removes ASCII whitespace only. Python's Unicode digits and Unicode whitespace are not modelled.
- pandas internals. A DataFrame is a sequence of records, and a count table is a sequence of `Entry(key, count)`. The column labels `IP Address`, `Request Count` and `Failed Login Count` are not modelled. Neither is the order `value_counts` and `idxmax` give to ties; here it is first appearance.
- Analytics.DetectSuspiciousActivity takes the threshold as a natural number. Both sources use the constant 10, which `LogAnalysis.DetectSuspiciousActivity` and `LogAnalyzer.DetectSuspiciousActivity` fix.
- Empty input to the three analyses. In the code, a DataFrame built from no rows has no columns, so selecting `ip`, `endpoint` or `status` raises `KeyError`. The model returns that failure. A caller might expect an empty report for an empty log, but the code raises `KeyError`.
- The endpoint group is `/[^ ]*`, so an endpoint may contain a `"`. The model follows the code. A reader of the log format might expect an endpoint never to contain a quote, but the pattern allows it.
- The parsers strip both ends of a line, as `line.strip()` does, so leading whitespace is dropped as well as the trailing newline.
- The end anchor `$`. Python's `$` also matches before a final newline. Patterns are only ever applied to stripped lines, which cannot end in a newline, so `$` is the end of the text here.
