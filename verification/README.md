# Email keyword scanner and HTML log page, modelled in Dafny

The scanner walks a corpus directory and searches every file for a list of
keywords. It searches `.eml` files part by part as email messages, and it
can save matching attachments. It searches other files through an
extension-specific parser. It appends one line per keyword found to a match
log and appends error messages to an error log. The client then renders the
match log and the error text as an HTML page.

The model has one module per component:

- `Basics`: `Option`, the byte type, and `Outcome` (a value, or the exception a library call raises).
- `Text`: the Python `str` operations the code relies on.
  - `isspace`, `strip`, `lower`, `in`, `startswith`/`endswith`, `rfind`.
  - `split`/`join` on one character.
- `Keywords`:
  - the keyword matcher repeated in `process_part`, `save_attachments` and `process_file`;
  - the parsing of the keyword file.
- `Paths`:
  - `sanitize_filename`;
  - POSIX `os.path.splitext`, `split` and `join`;
  - the two-segment path written to the match log;
  - the attachment destination;
  - `get_file_extension`.
- `Parts`:
  - an email part, `decode_content`, and the extension tables of `process_file` and `save_attachments`;
  - `Env`, which holds the libraries the scanner calls. Each one is a function that returns a value or raises.
- `Processor`:
  - the `Sink` class, which holds the match log, the error log, the directories made and the files written;
  - the `EmailProcessor` class, whose methods change the sink;
  - for each method, a function giving the new state of the sink from the old one, with lemmas about those functions.
- `Walker`: `search_keywords_in_emails`, including its duplicate filter, its `.eml` routing, the tasks it runs and the count it reports.
- `HtmlBlocks`, `HtmlLog`: `generate_html_log`, its string-building loop, and the page it returns.

Some behaviours are modelled exactly as the code has them:

- **A `text/plain` part without a charset is never searched.**
  - `decode_content` returns the raw bytes for such a part.
  - The first `keyword.lower() in content.lower()` test on those bytes raises `TypeError`.
  - So, whenever there is any keyword, the part leaves one error record and no match (`Processor.PlainWithoutCharset`).
- **Content sniffing in `get_file_extension` is dead code.**
  - The `magic` there is the bytes constant imported from `pandas.io.sas.sas_constants`.
  - So `magic.Magic` raises `AttributeError`, and the handler returns `None` (`Paths.ExtensionIgnoresContent`).
- **Extension table differences.**
  - Plain files with an `xlsx` extension are read, but `xlsx` attachments are not.
  - Attachments with the extensions `js`, `css`, `html`, `json` and `tsv` are read, but plain files with those extensions are not (`Parts.TablesDiffer`).
- **The match log is a sequence of `Match` records** (path, keyword).
  - `MatchLine` renders each record as the line written to the file: `Файл: /<dir>/<name>, Ключевое слово: <keyword>\n`.

## Model

| member | source | states |
|---|---|---|
| `Keywords.FindKeywords` | TRPZ/cours_work/core/server/core2.py:75-78 | The scan loop returns exactly the keywords whose lowered form occurs in the lowered content, in list order, duplicates kept. A keyword is in the result iff it is listed and matches. |
| `Keywords.Found` | TRPZ/cours_work/core/server/core2.py:75-78 | The list `found_keywords`: the matching keywords in list order, duplicates kept. `FindKeywords`, `FoundMembers`, `FoundAppend` and `FoundMultiplicity` state its properties. |
| `Keywords.FoundMembers` | TRPZ/cours_work/core/server/core2.py:133-136 | A keyword is reported iff it is in the list and matches the content. |
| `Keywords.FoundAppend` | TRPZ/cours_work/core/server/core2.py:219-222 | The matcher keeps order: the hits among `a + b` are the hits among `a` followed by the hits among `b`. |
| `Keywords.FoundMultiplicity` | TRPZ/cours_work/core/server/core2.py:76-78 | A matching keyword is reported as often as it is listed; a keyword that does not match is never reported. |
| `Keywords.CaseInsensitive` | TRPZ/cours_work/core/server/core2.py:77 | Lowering the content or the keyword first changes no answer. |
| `Keywords.MatchesInside` | TRPZ/cours_work/core/server/core2.py:77 | A keyword embedded anywhere in a text matches that text. |
| `Keywords.EmptyKeywordMatches` | TRPZ/cours_work/core/server/core2.py:282 | The empty keyword that a trailing comma in the keyword file yields matches every content. |
| `Keywords.ParsedKeywordsClean` | TRPZ/cours_work/core/server/core2.py:282 | The file yields one keyword more than it has commas. Each keyword is comma-free and already stripped. |
| `Keywords.ParseKeywords` | TRPZ/cours_work/core/server/core2.py:282 | The keyword file's text split at commas, each piece stripped. `ParsedKeywordsClean` and `ParseKeywordsRoundTrip` state its properties. |
| `Keywords.ParseKeywordsRoundTrip` | TRPZ/cours_work/core/server/core2.py:282 | Joining stripped, comma-free keywords with commas and parsing the result gives back the same list. |
| `Text.SplitJoin` | TRPZ/cours_work/core/server/core2.py:282 | Splitting the join of separator-free pieces gives back the pieces. |
| `Text.JoinSplit` | TRPZ/cours_work/core/client/generatelog.py:78 | Joining the pieces of a split with the separator gives back the text. |
| `Text.StripEmptyIff` | TRPZ/cours_work/core/client/generatelog.py:80 | A string strips to nothing exactly when every character is Python whitespace. |
| `Paths.Sanitize` | TRPZ/cours_work/core/server/core2.py:29-31 | Same length. Each of the eight characters slash, colon, star, question mark, double quote, less-than, greater-than and pipe becomes `_`, and every other character (backslash included) is unchanged. |
| `Paths.SanitizeSafe` | TRPZ/cours_work/core/server/core2.py:30 | A sanitized name has no unsafe character, in particular no `/`. |
| `Paths.SanitizeIdempotent` | TRPZ/cours_work/core/server/core2.py:29-31 | Sanitizing twice is sanitizing once. |
| `Paths.PathSplitLast` | TRPZ/cours_work/core/server/core2.py:151 | `os.path.split` of `pre dir/name` is `(pre dir, name)`. |
| `Paths.LogPathKeepsName` | TRPZ/cours_work/core/server/core2.py:150-153 | The logged path always starts with `/` and ends with the file's base name. |
| `Paths.LogPathShape` | TRPZ/cours_work/core/server/core2.py:150-153 | Of any path `…/dir/name`, only `/dir/name` is logged. |
| `Paths.LogPath` | TRPZ/cours_work/core/server/core2.py:150-153 | The path `log_found_keyword` writes: `/`, the parent directory's name and the base name. `LogPathKeepsName` and `LogPathShape` state its properties. |
| `Paths.AttachmentPathShape` | TRPZ/cours_work/core/server/core2.py:139 | For a plain relative output folder, the destination is `<folder>/attachments/<ext>/<sanitized name>`. |
| `Paths.AttachmentPath` | TRPZ/cours_work/core/server/core2.py:101-139 | Where a matching attachment is written: the folder, `attachments`, the extension and the sanitized name, joined. `AttachmentPathShape` states its shape. |
| `Paths.SplitExtParts` | TRPZ/cours_work/core/server/core2.py:38 | `splitext` cuts the path in two. A non-empty suffix is a dot followed by text with no dot and no slash. |
| `Paths.SplitExt` | TRPZ/cours_work/core/server/core2.py:37 | POSIX `os.path.splitext`: the cut at the last dot of the last segment, unless that segment's text before the dot is all dots. `SplitExtParts`, `SplitExtOfName` and `SplitExtHidden` state its properties. |
| `Paths.SplitExtOfName` | TRPZ/cours_work/core/server/core2.py:38 | `dir/stem.ext` splits at its last dot, even when the stem holds dots, unless the stem is all dots. |
| `Paths.SplitExtHidden` | TRPZ/cours_work/core/server/core2.py:38 | A name that is dots followed by a dot-free word (`.bashrc`) has no suffix. |
| `Paths.SuffixWord` | TRPZ/cours_work/core/server/core2.py:40 | `lstrip('.')` removes just the dot of a suffix. The lowered word contains no `.` and no `/`. |
| `Paths.ExtensionFromSuffix` | TRPZ/cours_work/core/server/core2.py:38-40 | When there is a suffix, the extension is that suffix without its dot, lowered, whatever the MIME tables say. |
| `Paths.ExtensionOfName` | TRPZ/cours_work/core/server/core2.py:37-40 | `dir/stem.ext` has the extension `lower(ext)`. A trailing dot gives the empty extension. |
| `Paths.ExtensionIgnoresContent` | TRPZ/cours_work/core/server/core2.py:47-54 | The bytes passed in never change the answer. This holds by definition, since the sniffing branch always ends in `None`; the lemma records that the branch is dead. |
| `Paths.ExtensionUnknown` | TRPZ/cours_work/core/server/core2.py:42-54 | A name with no suffix that is unknown to the MIME tables has no extension. |
| `Paths.GetFileExtension` | TRPZ/cours_work/core/server/core2.py:36-54 | The extension: the `splitext` suffix without its dot, lowered; without one, the lowered MIME-table guess; otherwise `None`, since the sniffing branch always ends there. `ExtensionFromSuffix`, `ExtensionOfName`, `ExtensionIgnoresContent` and `ExtensionUnknown` state its properties. |
| `Parts.DecodeContent` | TRPZ/cours_work/core/server/core2.py:56-70 | Every outcome with its value. A plain part with no (or an empty) charset gives its raw bytes. With a charset, it gives the decoded text; a `TypeError` gives the placeholder `Failed to decode content`; any other exception escapes. An html part gives `HTML content:` and a newline, followed by its markup. Any other part gives `Non-text content. Content type: ` followed by its content type. |
| `Parts.PlainBeforeHtml` | TRPZ/cours_work/core/server/core2.py:58-64 | The plain-text test comes first: a plain part with a charset that decodes yields its decoded text. |
| `Parts.MarkerTextMatches` | TRPZ/cours_work/core/server/core2.py:67-70 | An HTML or non-text part is searched through its marker text. The keyword `content` always matches it, and a non-text part matches whatever its content type matches. |
| `Parts.HtmlMarkerMatches` | TRPZ/cours_work/core/server/core2.py:68 | The HTML marker text contains `content`. |
| `Parts.NonTextMarkerMatches` | TRPZ/cours_work/core/server/core2.py:70 | The non-text marker contains `content` and every keyword found in the content type. |
| `Parts.FileParser` | TRPZ/cours_work/core/server/core2.py:188-216 | `process_file` has a parser exactly for txt, docx, pdf, csv, xlsx and xml. |
| `Parts.AttachmentParser` | TRPZ/cours_work/core/server/core2.py:106-130 | `save_attachments` has a parser exactly for txt, docx, pdf, xml, csv, js, css, html, json and tsv. The text ones are decoded as UTF-8. |
| `Parts.TablesDiffer` | TRPZ/cours_work/core/server/core2.py:118-130 | xlsx is read as a file but not as an attachment. js, css, html, json and tsv are read as attachments but not as files. |
| `Processor.MatchLineShape` | TRPZ/cours_work/core/server/core2.py:148-156 | The line for a match in `…/dir/name` is exactly `Файл: /dir/name, Ключевое слово: <keyword>` followed by a newline. |
| `Processor.MatchLine` | TRPZ/cours_work/core/server/core2.py:156 | The line written for a record. `MatchLineShape` states its exact form. |
| `Processor.Records` | TRPZ/cours_work/core/server/core2.py:81-82 | One record per found keyword, in order, each keyed by the given path. |
| `Processor.FoundRecordsConfirmed` | TRPZ/cours_work/core/server/core2.py:79-82 | Every record written for a scan names the path, a listed keyword, and a keyword the content matches. |
| `Processor.FileError` | TRPZ/cours_work/core/server/core2.py:84 | The error text of `process_part` (and of `process_file`, line 229): `Помилка з файлом: <path>`, a newline and `Помилка: <message>`. `PartOutcome` and `FileOutcome` state when it is logged. |
| `Processor.AttachmentError` | TRPZ/cours_work/core/server/core2.py:147 | The error text of `save_attachments`: `Помилка при збереженні вкладення: <message>` and a newline. `SaveOutcome` and `AttachmentSkipped` state when it is logged. |
| `Processor.EmailErrors` | TRPZ/cours_work/core/server/core2.py:183-184 | The two error texts of `process_email`, in order. `EmailUnreadable` states when they are logged. |
| `Processor.PartOutcome` | TRPZ/cours_work/core/server/core2.py:72-84 | A part only appends to the logs. An exception escaping `decode_content` adds exactly one error record, `Помилка з файлом: <path>`, a newline and `Помилка: <message>`, and no match. So does the `TypeError` of searching bytes. A part decoded to text adds no error. Its matches are keyed by the container's path and confirmed in the decoded text. A part without decoded text logs no match. |
| `Processor.PartMatchesComplete` | TRPZ/cours_work/core/server/core2.py:75-82 | A part decoded to text appends exactly one record per found keyword, in order, keyed by the container's path: no match is missed. |
| `Processor.PartEffect` | TRPZ/cours_work/core/server/core2.py:72-84 | The store after `process_part`. `PartOutcome`, `PlainWithoutCharset`, `PartKeyed` and `PartDelta` state its properties. |
| `Processor.PlainWithoutCharset` | TRPZ/cours_work/core/server/core2.py:58-84 | A text/plain part without a charset, searched for any keyword, leaves exactly one error record and nothing else. |
| `Processor.SaveOutcome` | TRPZ/cours_work/core/server/core2.py:98-147 | With the name and extension known, the extension directory is always made. The payload is written to `attachments/<ext>/<sanitized name>` and matches keyed by that path are logged iff the extracted text is non-empty and some keyword matches. Otherwise no file is written and no match is logged. A parser that raises adds exactly one error record, `Помилка при збереженні вкладення: <message>` and a newline; otherwise no error is logged. |
| `Processor.SaveMatchesComplete` | TRPZ/cours_work/core/server/core2.py:132-144 | An attachment whose extracted text is not empty appends exactly one record per found keyword, in order, keyed by its destination. |
| `Processor.SaveEffect` | TRPZ/cours_work/core/server/core2.py:100-147 | The store after `save_attachments` once the name and extension are known: the directory is made, then `TextEffect` applies. `SaveOutcome` and `SaveDelta` state its properties. |
| `Processor.TextEffect` | TRPZ/cours_work/core/server/core2.py:104-147 | The rest of `save_attachments` once the directory exists: the parser's error, or the write and the matches, or nothing. `TextDelta` states its independence from the store. |
| `Processor.AttachmentSkipped` | TRPZ/cours_work/core/server/core2.py:86-147 | Container parts, and parts with no file name, change nothing. A file or match is added only for a decoded name whose extension the attachment table supports. A file name whose header cannot be decoded adds exactly one error record and nothing else. |
| `Processor.AttachmentEffect` | TRPZ/cours_work/core/server/core2.py:86-147 | The store after `save_attachments`. `AttachmentSkipped`, `SaveOutcome` and `AttachmentDelta` state its properties. |
| `Processor.LeafEffect` | TRPZ/cours_work/core/server/core2.py:171-178 | The store after one part of the walk: a container is skipped, any other part searched and, when asked, saved. `LeafDelta` states its independence from the store. |
| `Processor.PartsEffectConcat` | TRPZ/cours_work/core/server/core2.py:169-180 | The effect of a message's parts is the effect of its first parts followed by that of the rest. |
| `Processor.PartsEffect` | TRPZ/cours_work/core/server/core2.py:169-180 | The store after the walk over a message's parts, one `LeafEffect` after another in walk order. `ProcessParts`, `PartsEffectConcat`, `PartsEffectExtends`, `PartsDelta` and `PartIsolated` state its properties. |
| `Processor.PartExtends` | TRPZ/cours_work/core/server/core2.py:72-84 | Searching a part never removes log records, directories or files. |
| `Processor.AttachmentExtends` | TRPZ/cours_work/core/server/core2.py:86-147 | Saving an attachment never removes log records, directories or files. |
| `Processor.PartsEffectExtends` | TRPZ/cours_work/core/server/core2.py:169-180 | Processing any sequence of parts never removes log records, directories or files. |
| `Processor.PartKeyed` | TRPZ/cours_work/core/server/core2.py:79-82 | A part's new match records are keyed by the container's own path and name listed keywords. |
| `Processor.BodyMatchesKeyedByContainer` | TRPZ/cours_work/core/server/core2.py:169-180 | Without attachment saving, every match record of a message is keyed by the message file's path. |
| `Processor.EmailUnreadable` | TRPZ/cours_work/core/server/core2.py:163-184 | A message that cannot be read or parsed adds exactly two error records and changes nothing else: `Помилка обробки електронної пошти в файлі: <path>` and a newline, then `Помилка: <message>` and a newline, for the exception raised. |
| `Processor.EmailEffect` | TRPZ/cours_work/core/server/core2.py:163-184 | The store after `process_email`. `EmailUnreadable`, `EmailEffectExtends`, `BodyMatchesKeyedByContainer` and `EmailDelta` state its properties. |
| `Processor.EmailEffectExtends` | TRPZ/cours_work/core/server/core2.py:163-184 | Processing a message never removes log records, directories or files. |
| `Processor.FileOutcome` | TRPZ/cours_work/core/server/core2.py:186-229 | An unsupported extension leaves no trace. A read or a parser that raises adds exactly one error record, `Помилка з файлом: <path>`, a newline and `Помилка: <message>`, and nothing else; otherwise no error is added. It writes no file. Its matches are keyed by the file's path and confirmed in a non-empty parsed text. |
| `Processor.FileMatchesComplete` | TRPZ/cours_work/core/server/core2.py:218-226 | A file whose parsed text is not empty appends exactly one record per found keyword, in order, keyed by its path. |
| `Processor.FileEffect` | TRPZ/cours_work/core/server/core2.py:186-229 | The store after `process_file`. `FileOutcome` and `FileDelta` state its properties. |
| `Processor.PartDelta` | TRPZ/cours_work/core/server/core2.py:72-84 | What a part writes does not depend on the store it starts from: on any store it appends exactly what it writes on the empty store. |
| `Processor.TextDelta` | TRPZ/cours_work/core/server/core2.py:104-147 | The end of `save_attachments` writes the same on any store. |
| `Processor.SaveDelta` | TRPZ/cours_work/core/server/core2.py:100-147 | Saving a named attachment writes the same on any store: the same directory, file, matches and error. |
| `Processor.AttachmentDelta` | TRPZ/cours_work/core/server/core2.py:86-147 | `save_attachments` writes the same on any store. |
| `Processor.LeafDelta` | TRPZ/cours_work/core/server/core2.py:171-178 | One part of the walk, searched and possibly saved, writes the same on any store. |
| `Processor.PartsDelta` | TRPZ/cours_work/core/server/core2.py:169-180 | All the parts of a message together write the same on any store. |
| `Processor.PartIsolated` | TRPZ/cours_work/core/server/core2.py:169-180 | No part's outcome depends on a sibling's: after any earlier parts, a part adds exactly what it would add on its own, an exception included. |
| `Processor.EmailDelta` | TRPZ/cours_work/core/server/core2.py:163-184 | A message file, read or not, writes the same on any store. |
| `Processor.FileDelta` | TRPZ/cours_work/core/server/core2.py:186-229 | A plain file writes the same on any store. |
| `Processor.Sink.AppendMatch` | TRPZ/cours_work/core/server/core2.py:155-156 | One record is appended to the match log, and nothing else changes. |
| `Processor.Sink.AppendError` | TRPZ/cours_work/core/server/core2.py:160-161 | The message is appended to the error log as it is, and nothing else changes. |
| `Processor.Sink.MakeDirs` | TRPZ/cours_work/core/server/core2.py:102 | The directory is added, and nothing else changes. |
| `Processor.Sink.WriteFile` | TRPZ/cours_work/core/server/core2.py:140-141 | The file at that path is created or overwritten with the payload, and nothing else changes. |
| `Processor.EmailProcessor.constructor` | TRPZ/cours_work/core/server/core2.py:22-27 | The processor keeps its file path, sink (the two log files), keywords and output folder. |
| `Processor.EmailProcessor.LogFoundKeyword` | TRPZ/cours_work/core/server/core2.py:148-156 | Appends the record `(path, keyword)`, whose line is `MatchLine`, and nothing else. |
| `Processor.EmailProcessor.LogError` | TRPZ/cours_work/core/server/core2.py:158-161 | Appends the message verbatim, and nothing else. |
| `Processor.EmailProcessor.LogEach` | TRPZ/cours_work/core/server/core2.py:81-82 | Appends one record per found keyword, in order. |
| `Processor.EmailProcessor.ProcessPart` | TRPZ/cours_work/core/server/core2.py:72-84 | The new sink state is `PartEffect` of the old one; `PartOutcome` gives its properties. |
| `Processor.EmailProcessor.SaveAttachments` | TRPZ/cours_work/core/server/core2.py:86-147 | The new sink state is `AttachmentEffect` of the old one; `SaveOutcome` and `AttachmentSkipped` give its properties. |
| `Processor.EmailProcessor.ProcessEmail` | TRPZ/cours_work/core/server/core2.py:163-184 | The new sink state is `EmailEffect` of the old one: either the two error records, or every leaf part in walk order. |
| `Processor.EmailProcessor.ProcessParts` | TRPZ/cours_work/core/server/core2.py:169-180 | Multipart containers are skipped. Every other part is searched and then, when asked, saved, one after another. |
| `Processor.EmailProcessor.ProcessLeaf` | TRPZ/cours_work/core/server/core2.py:171-178 | One part of the walk: skipped if it is a container, otherwise searched and, when asked, saved. |
| `Processor.EmailProcessor.ProcessFile` | TRPZ/cours_work/core/server/core2.py:186-229 | The new sink state is `FileEffect` of the old one for the path passed in; `FileOutcome` gives its properties. |
| `Walker.TaskOf` | TRPZ/cours_work/core/server/core2.py:239-248 | A task carries the joined path. It is an email task exactly when the name ends in `.eml` (case-sensitive). |
| `Walker.DirEntries` | TRPZ/cours_work/core/server/core2.py:238-239 | One entry per listed name of the directory, in listing order. |
| `Walker.PathsOfMembers` | TRPZ/cours_work/core/server/core2.py:234-249 | The set of dispatched paths holds exactly the tasks' paths. |
| `Walker.ScheduledCovers` | TRPZ/cours_work/core/server/core2.py:237-249 | Every file met gets a task for its path: the tasks' paths are exactly the walk's file paths. |
| `Walker.ScheduledDistinct` | TRPZ/cours_work/core/server/core2.py:240-249 | No path is dispatched twice. |
| `Walker.ScheduledFromEntries` | TRPZ/cours_work/core/server/core2.py:241-248 | Every task is the one its file's name calls for. |
| `Walker.Scheduled` | TRPZ/cours_work/core/server/core2.py:237-249 | The tasks created, in creation order, one per path not yet in `processed_files`. `ScheduledCovers`, `ScheduledDistinct`, `ScheduledFromEntries` and `ProcessedCount` state its properties. |
| `Walker.DistinctCount` | TRPZ/cours_work/core/server/core2.py:249 | When the paths are distinct, the set of paths has as many members as there are tasks. |
| `Walker.ProcessedCount` | TRPZ/cours_work/core/server/core2.py:253 | The count reported is the number of distinct file paths in the walk, and it equals the number of tasks run. |
| `Walker.RunConcat` | TRPZ/cours_work/core/server/core2.py:251 | Running one batch of tasks and then the next is the same as running them all in order. |
| `Walker.RunExtends` | TRPZ/cours_work/core/server/core2.py:243-251 | Running tasks never removes log records, directories or files. |
| `Walker.RunTask` | TRPZ/cours_work/core/server/core2.py:241-248 | One task: `process_email` for a message, `process_file` for anything else. `RunTaskDelta` and `TaskIsolated` state its properties. |
| `Walker.RunTaskDelta` | TRPZ/cours_work/core/server/core2.py:241-248 | What a task writes does not depend on what was written before it. |
| `Walker.TaskIsolated` | TRPZ/cours_work/core/server/core2.py:241-251 | One file leaves the others unaffected: after any earlier tasks, a task adds exactly what it would add on its own. |
| `Walker.SearchKeepsOutput` | TRPZ/cours_work/core/server/core2.py:235 | Afterwards the output folder exists and nothing earlier is lost. |
| `Walker.SearchEffect` | TRPZ/cours_work/core/server/core2.py:232-253 | The store after the whole search: the output folder is made, then every scheduled task runs. `SearchKeepsOutput` states its properties. |
| `Walker.ScheduleDir` | TRPZ/cours_work/core/server/core2.py:238-249 | The loop over one directory's files creates exactly the tasks that `Scheduled` adds for them, and `processed_files` stays the set of scheduled paths. |
| `Walker.Gather` | TRPZ/cours_work/core/server/core2.py:251 | Each task runs its processor's `process_email` or `process_file`, in creation order. |
| `Walker.SearchKeywordsInEmails` | TRPZ/cours_work/core/server/core2.py:232-255 | The final sink state is `SearchEffect` of the walk. The count is the number of distinct file paths, so `ProcessedCount` ties it to the tasks. |
| `HtmlBlocks.Kept` | TRPZ/cours_work/core/client/generatelog.py:79-80 | No more lines than the log, and no kept line is blank. |
| `HtmlBlocks.KeptMembers` | TRPZ/cours_work/core/client/generatelog.py:79-81 | Kept lines are log lines, and every line that is not blank is kept. |
| `HtmlBlocks.KeptAllLines` | TRPZ/cours_work/core/client/generatelog.py:79-81 | A log with no blank line keeps every line, verbatim and in order. |
| `HtmlBlocks.KeptMultiplicity` | TRPZ/cours_work/core/client/generatelog.py:79-81 | A line that is not blank gets exactly as many blocks as it has occurrences in the log; a blank line gets none. |
| `HtmlBlocks.KeptAppend` | TRPZ/cours_work/core/client/generatelog.py:78-81 | Lines are kept in log order: the kept lines of `a + b` are those of `a` followed by those of `b`. |
| `HtmlBlocks.KeptEmptyIff` | TRPZ/cours_work/core/client/generatelog.py:80 | No line is kept exactly when every line is blank. |
| `HtmlBlocks.NoLogBlocksIff` | TRPZ/cours_work/core/client/generatelog.py:77-81 | There are no log-entry blocks exactly when `log` is missing or all whitespace. |
| `HtmlBlocks.LogPart` | TRPZ/cours_work/core/client/generatelog.py:77-81 | The log blocks of the page: one block per kept line, or nothing without a `log`. `NoLogBlocksIff` and `LineInLog` state its properties. |
| `HtmlBlocks.ErrorPart` | TRPZ/cours_work/core/client/generatelog.py:83-84 | The error block of the page, or nothing. `ErrorPartIff` states its properties. |
| `HtmlBlocks.LineInLog` | TRPZ/cours_work/core/client/generatelog.py:77-81 | Every log line that does not strip to nothing has its `<div class='log-entry'>line</div>` block, with the text unescaped. |
| `HtmlBlocks.EntryOf` | TRPZ/cours_work/core/client/generatelog.py:81 | Each kept line's block occurs in the blocks. |
| `HtmlBlocks.ErrorPartIff` | TRPZ/cours_work/core/client/generatelog.py:83-84 | The error block is present exactly when `errors` is present and does not strip to nothing. It holds the whole, unsplit, unescaped text. |
| `HtmlBlocks.AppendBlocks` | TRPZ/cours_work/core/client/generatelog.py:78-81 | The loop appends the blocks of exactly the non-blank lines, in order. |
| `HtmlLog.LineShown` | TRPZ/cours_work/core/client/generatelog.py:77-81 | Every non-blank log line's block is on the page. |
| `HtmlLog.PageFrame` | TRPZ/cours_work/core/client/generatelog.py:73-87 | The page always starts with the head, banner and container opening and ends with `</div></body></html>`. |
| `HtmlLog.Page` | TRPZ/cours_work/core/client/generatelog.py:73-87 | The page for a reply: the top, the log blocks, the error block, then the closing tags. `LineShown` and `PageFrame` state its properties. |
| `HtmlLog.GenerateHtmlLog` | TRPZ/cours_work/core/client/generatelog.py:1-87 | The string built is `Page`: the top, then the log blocks, then the error block, then the closing tags. |

## Left out

- **File I/O.** `aiofiles` reads and writes and `os.makedirs` are modelled as updates of the `Sink`.
  - A failure to append to a log, make a directory or write an attachment is not modelled.
  - `log_found_keyword` and `log_error` are assumed to succeed.
- Processor.Sink.MakeDirs: records only the directory named. `os.makedirs` at core2.py lines 102 and 235 also creates every missing parent, such as `<folder>/attachments`; those parents are not recorded.
- **Concurrency.** The tasks that `asyncio.create_task` and `asyncio.gather` run concurrently are modelled as running one after another, in creation order. Interleavings are not modelled.
- Walker.Gather: does not state the interleaving of concurrently running tasks.
- Processor.EmailProcessor.ProcessParts: does not state the interleaving of concurrently running tasks.
- **The directory walk.** It is an input: the sequence of directories and file names that `os.walk` yields.
  - `os.walk` is called without `onerror`, so a directory it cannot list is skipped silently; the input holds only what is listed.
  - The `except` at core2.py lines 254-255 prints any other failure of the search, for example of `os.makedirs` at line 235, and stops it. Such failures are not modelled.
- **Printing.** The printed count is returned. Printed error messages are not modelled.
- **Libraries.** These are opaque functions of `Env` that return a value or raise:
  - MIME parsing and `walk()`;
  - `decode_header`;
  - `bytes.decode`;
  - the document parsers (docx, fitz, pandas, ElementTree);
  - `mimetypes.guess_type` and `guess_extension`.
  - Exception messages are opaque strings.
- **`str.lower`.** It is modelled for ASCII and the basic Cyrillic letters only. Other Unicode case folding is not modelled.
- **Paths.** They are POSIX paths. `splitdrive` finds no drive, and Windows separators are not modelled.
- **`decode_subject`.** It is never called, so it is not modelled.
- **The command-line entry point** (argparse, banner, timing, launching the extractor) is not modelled, apart from the keyword parsing at core2.py line 282.
- **The server reply.** It is reduced to the two optional strings the page reads. Non-string JSON values are not modelled.
- **The database module, the HTTP client and server, and the archive extractor** are not part of this model.
