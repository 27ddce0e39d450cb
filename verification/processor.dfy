/**
 * `EmailProcessor`: one per corpus file. Its methods decode and search email
 * parts, persist matching attachments, search plain files, and append to the
 * match log and the error log. The logs and the output area form the `Sink`
 * the methods change; each method is proved against a function that gives the
 * new state of the sink from the old one.
 */
module Processor {
  import opened Basics
  import opened Text
  import opened Keywords
  import opened Paths
  import opened Parts

  /** The scanner's durable output: the appends made to the match log and to
      the error log, the directories created and the attachment files written. */
  datatype Store = Store(matchLog: seq<Match>, errorLog: seq<string>, dirs: set<string>, files: map<string, Bytes>)

  /** One record of the match log: the file (or saved attachment) a keyword
      was found in, and the keyword as listed. */
  datatype Match = Match(path: string, keyword: string)

  /** Nothing is ever removed: both logs only grow at their ends, and
      directories and written files stay. */
  predicate Extends(a: Store, b: Store) {
    a.matchLog <= b.matchLog && a.errorLog <= b.errorLog && a.dirs <= b.dirs && a.files.Keys <= b.files.Keys
  }

  lemma ExtendsTransitive(a: Store, b: Store, c: Store)
    requires Extends(a, b) && Extends(b, c)
    ensures Extends(a, c)
  {
  }

  /** The store before anything is written. */
  const Empty := Store([], [], {}, map[])

  /** `st` after the writes recorded in `d`: both logs extended by `d`'s, its
      directories added and its files written, over any of the same name. */
  function Grow(st: Store, d: Store): (r: Store)
    ensures Extends(st, r)
    ensures r.matchLog[|st.matchLog|..] == d.matchLog && r.errorLog[|st.errorLog|..] == d.errorLog
    ensures forall p :: p in d.files ==> p in r.files && r.files[p] == d.files[p]
  {
    Store(st.matchLog + d.matchLog, st.errorLog + d.errorLog, st.dirs + d.dirs, st.files + d.files)
  }

  lemma GrowEmpty(st: Store)
    ensures Grow(st, Empty) == st
  {
    assert st.files + map[] == st.files;
  }

  lemma GrowAssoc(a: Store, b: Store, c: Store)
    ensures Grow(Grow(a, b), c) == Grow(a, Grow(b, c))
  {
    assert (a.files + b.files) + c.files == a.files + (b.files + c.files);
  }

  /** The line `log_found_keyword` writes for a record: the path is cut down
      to `/<parent dir>/<name>`. */
  function MatchLine(m: Match): string {
    "Файл: " + LogPath(m.path) + ", Ключевое слово: " + m.keyword + "\n"
  }

  /** For a file `<pre><dir>/<name>` the line shows `/<dir>/<name>` and the
      keyword. */
  lemma MatchLineShape(pre: string, dir: string, name: string, keyword: string)
    requires pre == [] || EndsWith(pre, "/")
    requires dir != [] && '/' !in dir && '/' !in name
    ensures MatchLine(Match(pre + dir + "/" + name, keyword)) ==
            "Файл: " + ("/" + dir + "/" + name) + ", Ключевое слово: " + keyword + "\n"
  {
    LogPathShape(pre, dir, name);
  }

  /** The records for a list of found keywords, in order. */
  function Records(path: string, keywords: seq<string>): (r: seq<Match>)
    ensures |r| == |keywords|
    ensures forall j :: 0 <= j < |keywords| ==> r[j] == Match(path, keywords[j])
  {
    if keywords == [] then []
    else Records(path, keywords[..|keywords| - 1]) + [Match(path, keywords[|keywords| - 1])]
  }

  /** The error texts of `process_part` / `process_file`, `save_attachments`
      and `process_email`. */
  function FileError(path: string, e: Exception): string {
    "Помилка з файлом: " + path + "\nПомилка: " + e.message
  }

  function AttachmentError(e: Exception): string {
    "Помилка при збереженні вкладення: " + e.message + "\n"
  }

  function EmailErrors(path: string, e: Exception): seq<string> {
    ["Помилка обробки електронної пошти в файлі: " + path + "\n", "Помилка: " + e.message + "\n"]
  }

  /** What `keyword.lower() in content.lower()` raises when `content` is bytes. */
  const BytesNotStr := TypeError("a bytes-like object is required, not 'str'")

  function Logged(st: Store, path: string, found: seq<string>): Store {
    st.(matchLog := st.matchLog + Records(path, found))
  }

  lemma LoggedStep(st: Store, path: string, found: seq<string>, i: nat)
    requires i < |found|
    ensures Logged(st, path, found[..i + 1]) ==
            Logged(st, path, found[..i]).(matchLog := Logged(st, path, found[..i]).matchLog + [Match(path, found[i])])
  {
    assert found[..i + 1][..i] == found[..i];
    var m := Records(path, found[..i]);
    assert Records(path, found[..i + 1]) == m + [Match(path, found[i])];
    assert st.matchLog + (m + [Match(path, found[i])]) == st.matchLog + m + [Match(path, found[i])];
  }

  function Failed(st: Store, message: string): Store {
    st.(errorLog := st.errorLog + [message])
  }

  /** `process_part`: the matches of a part are keyed by the container's own
      path. A part whose content is bytes makes the first membership test
      raise, so with any keyword at all it yields an error and no match. */
  function PartEffect(filePath: string, keywords: seq<string>, part: Part, env: Env, st: Store): Store {
    match DecodeContent(part, env.decodeCharset)
    case Escaped(e) => Failed(st, FileError(filePath, e))
    case Binary(_) => if keywords == [] then st else Failed(st, FileError(filePath, BytesNotStr))
    case Str(s) => Logged(st, filePath, Found(s, keywords))
  }

  /** The text `save_attachments` searches, by extension: none for an
      unsupported one, or the parser's result. */
  function AttachmentText(ext: string, payload: Bytes, env: Env): Option<Outcome<string>> {
    match AttachmentParser(ext)
    case None => None
    case Some(parser) => Some(env.parse(parser, payload))
  }

  /** `save_attachments`, after its decoded file name `name` and extension
      `ext` are known: the extension directory is made, and the payload is
      written and its matches logged under the destination path only when the
      extracted text is non-empty and some keyword matches it. */
  function SaveEffect(folder: string, keywords: seq<string>, name: string, ext: string, payload: Bytes, env: Env, st: Store): Store {
    var st1 := st.(dirs := st.dirs + {Join(Join(folder, "attachments"), ext)});
    TextEffect(keywords, AttachmentPath(folder, ext, name), payload, AttachmentText(ext, payload, env), st1)
  }

  /** The rest of `save_attachments` once the extension directory exists:
      `text` is what its parser gave, `dest` where a matching payload goes. */
  function TextEffect(keywords: seq<string>, dest: string, payload: Bytes, text: Option<Outcome<string>>, st: Store): Store {
    match text
    case None => st
    case Some(Raised(e)) => Failed(st, AttachmentError(e))
    case Some(Ok(content)) =>
      if content == [] then st
      else
        var found := Found(content, keywords);
        if found == [] then st
        else Logged(st.(files := st.files[dest := payload]), dest, found)
  }

  /** `save_attachments`: container parts and parts without a file name are
      skipped, and so is a name without an extension. */
  function AttachmentEffect(folder: string, keywords: seq<string>, part: Part, env: Env, st: Store): Store {
    if IsMultipart(part) || part.filename.None? || part.filename.value == [] then st
    else
      match env.decodeHeader(part.filename.value)
      case Raised(e) => Failed(st, AttachmentError(e))
      case Ok(name) =>
        var ext := GetFileExtension(name, Some(part.payload), env.mime);
        if ext.None? || ext.value == [] then st
        else SaveEffect(folder, keywords, name, ext.value, part.payload, env, st)
  }

  /** The leaf parts of a message, in `walk()` order, each searched and then,
      when attachments are saved, offered to `save_attachments`. */
  function PartsEffect(filePath: string, keywords: seq<string>, folder: string, saveAttachments: bool,
                       env: Env, parts: seq<Part>, st: Store): Store
  {
    if parts == [] then st
    else
      var before := PartsEffect(filePath, keywords, folder, saveAttachments, env, parts[..|parts| - 1], st);
      LeafEffect(filePath, keywords, folder, saveAttachments, env, parts[|parts| - 1], before)
  }

  /** One part of the walk: a container is skipped, any other part is
      searched and then, when asked, offered to `save_attachments`. */
  function LeafEffect(filePath: string, keywords: seq<string>, folder: string, saveAttachments: bool,
                      env: Env, part: Part, st: Store): Store
  {
    if IsMultipart(part) then st
    else
      var searched := PartEffect(filePath, keywords, part, env, st);
      if saveAttachments then AttachmentEffect(folder, keywords, part, env, searched) else searched
  }

  /** `process_email`: a file that cannot be read or parsed yields the two
      error records and nothing else. */
  function EmailEffect(filePath: string, keywords: seq<string>, folder: string, saveAttachments: bool, env: Env, st: Store): Store {
    match env.readFile(filePath)
    case Raised(e) => st.(errorLog := st.errorLog + EmailErrors(filePath, e))
    case Ok(data) =>
      match env.parseEmail(data)
      case Raised(e) => st.(errorLog := st.errorLog + EmailErrors(filePath, e))
      case Ok(parts) => PartsEffect(filePath, keywords, folder, saveAttachments, env, parts, st)
  }

  /** `process_file`: only the six extensions of its table are read; an empty
      text matches nothing. */
  function FileEffect(filePath: string, keywords: seq<string>, env: Env, st: Store): Store {
    match FileParser(GetFileExtension(filePath, None, env.mime))
    case None => st
    case Some(parser) =>
      match env.readFile(filePath)
      case Raised(e) => Failed(st, FileError(filePath, e))
      case Ok(data) =>
        match env.parse(parser, data)
        case Raised(e) => Failed(st, FileError(filePath, e))
        case Ok(content) => if content == [] then st else Logged(st, filePath, Found(content, keywords))
  }

  /** Every record in `lines` is the record of `path` with a keyword of the
      list that `content` was confirmed to contain. */
  predicate Confirmed(records: seq<Match>, path: string, content: string, keywords: seq<string>) {
    forall j :: 0 <= j < |records| ==>
      records[j].path == path && records[j].keyword in keywords && Matches(content, records[j].keyword)
  }

  /** The records written for the found keywords are confirmed ones. */
  lemma FoundRecordsConfirmed(path: string, content: string, keywords: seq<string>)
    ensures Confirmed(Records(path, Found(content, keywords)), path, content, keywords)
  {
    var found := Found(content, keywords);
    FoundMembers(content, keywords);
    forall j | 0 <= j < |found| ensures found[j] in keywords && Matches(content, found[j]) {
      assert found[j] in found;
    }
  }

  /** `process_part` touches only the logs. An exception that escapes
      `decode_content`, or the `TypeError` of searching bytes, appends exactly
      one error record, with its message, and no match; a part decoded to text
      appends no error. Its matches are keyed by the container's path and
      confirmed in the part's decoded text; a part with no decoded text logs
      no match. */
  lemma PartOutcome(filePath: string, keywords: seq<string>, part: Part, env: Env, st: Store)
    ensures var st' := PartEffect(filePath, keywords, part, env, st);
      var d := DecodeContent(part, env.decodeCharset);
      && Extends(st, st') && st'.dirs == st.dirs && st'.files == st.files
      && |st'.errorLog| <= |st.errorLog| + 1
      && (|st'.errorLog| > |st.errorLog| ==> st'.matchLog == st.matchLog)
      && (d.Escaped? ==> st'.errorLog == st.errorLog + [FileError(filePath, d.exc)])
      && (d.Binary? && keywords != [] ==> st'.errorLog == st.errorLog + [FileError(filePath, BytesNotStr)])
      && (d.Str? || (d.Binary? && keywords == []) ==> st'.errorLog == st.errorLog)
      && (d.Str? ==> Confirmed(st'.matchLog[|st.matchLog|..], filePath, d.s, keywords))
      && (!d.Str? ==> st'.matchLog == st.matchLog)
  {
    var st' := PartEffect(filePath, keywords, part, env, st);
    var d := DecodeContent(part, env.decodeCharset);
    if d.Str? {
      FoundRecordsConfirmed(filePath, d.s, keywords);
      assert st'.matchLog[|st.matchLog|..] == Records(filePath, Found(d.s, keywords));
    }
  }

  /** The match records of a part are all of its found keywords, in order:
      a part decoded to text appends exactly `Records(filePath, Found(…))`. */
  lemma PartMatchesComplete(filePath: string, keywords: seq<string>, part: Part, env: Env, st: Store)
    requires DecodeContent(part, env.decodeCharset).Str?
    ensures PartEffect(filePath, keywords, part, env, st).matchLog ==
            st.matchLog + Records(filePath, Found(DecodeContent(part, env.decodeCharset).s, keywords))
  {
  }

  /** A plain file whose text was read and is not empty appends exactly the
      records of all its found keywords, in order. An empty text is not
      searched at all (`FileOutcome`), even for the empty keyword. */
  lemma FileMatchesComplete(filePath: string, keywords: seq<string>, env: Env, st: Store)
    requires FileParser(GetFileExtension(filePath, None, env.mime)).Some?
    requires env.readFile(filePath).Ok?
    requires env.parse(FileParser(GetFileExtension(filePath, None, env.mime)).value, env.readFile(filePath).value).Ok?
    requires env.parse(FileParser(GetFileExtension(filePath, None, env.mime)).value, env.readFile(filePath).value).value != []
    ensures FileEffect(filePath, keywords, env, st).matchLog ==
            st.matchLog + Records(filePath, Found(env.parse(FileParser(GetFileExtension(filePath, None, env.mime)).value,
                                                            env.readFile(filePath).value).value, keywords))
  {
  }

  /** An attachment whose extracted text is not empty appends exactly the
      records of all its found keywords, in order, keyed by its destination.
      An empty text is not searched (`SaveOutcome`). */
  lemma SaveMatchesComplete(folder: string, keywords: seq<string>, name: string, ext: string, payload: Bytes, env: Env, st: Store)
    requires AttachmentText(ext, payload, env).Some? && AttachmentText(ext, payload, env).value.Ok?
    requires AttachmentText(ext, payload, env).value.value != []
    ensures SaveEffect(folder, keywords, name, ext, payload, env, st).matchLog ==
            st.matchLog + Records(AttachmentPath(folder, ext, name), Found(AttachmentText(ext, payload, env).value.value, keywords))
  {
  }

  /** A text/plain part that declares no charset is never searched: as soon
      as there is a keyword, the membership test on its bytes raises, and the
      part leaves one error record and no match. */
  lemma PlainWithoutCharset(filePath: string, keywords: seq<string>, part: Part, env: Env, st: Store)
    requires IsPlain(part) && part.charset.None? && keywords != []
    ensures PartEffect(filePath, keywords, part, env, st) ==
            st.(errorLog := st.errorLog + [FileError(filePath, BytesNotStr)])
  {
  }

  /** Once an attachment's name and extension are known, its matches are
      logged exactly when its extracted text is non-empty and some keyword
      matches it; then, and only then, the payload is written to
      `<folder>/attachments/<ext>/<sanitized name>`, and every record is keyed
      by that destination. The extension directory is made in any case. A
      parser that raises appends exactly one error record, with its message;
      otherwise no error is logged. */
  lemma SaveOutcome(folder: string, keywords: seq<string>, name: string, ext: string, payload: Bytes, env: Env, st: Store)
    ensures var st' := SaveEffect(folder, keywords, name, ext, payload, env, st);
      var text := AttachmentText(ext, payload, env);
      var matched := text.Some? && text.value.Ok? && text.value.value != [] && Found(text.value.value, keywords) != [];
      var dest := AttachmentPath(folder, ext, name);
      && Extends(st, st')
      && st'.dirs == st.dirs + {Join(Join(folder, "attachments"), ext)}
      && (st'.matchLog != st.matchLog <==> matched)
      && (matched ==> st'.files == st.files[dest := payload]
                      && Confirmed(st'.matchLog[|st.matchLog|..], dest, text.value.value, keywords))
      && (!matched ==> st'.files == st.files && st'.matchLog == st.matchLog)
      && (text.Some? && text.value.Raised? ==> st'.errorLog == st.errorLog + [AttachmentError(text.value.exc)])
      && (!(text.Some? && text.value.Raised?) ==> st'.errorLog == st.errorLog)
  {
    var st' := SaveEffect(folder, keywords, name, ext, payload, env, st);
    var text := AttachmentText(ext, payload, env);
    if text.Some? && text.value.Ok? && text.value.value != [] {
      var found := Found(text.value.value, keywords);
      var dest := AttachmentPath(folder, ext, name);
      FoundRecordsConfirmed(dest, text.value.value, keywords);
      if found != [] {
        assert st'.matchLog == st.matchLog + Records(dest, found);
        assert st'.matchLog[|st.matchLog|..] == Records(dest, found);
        assert |st'.matchLog| > |st.matchLog|;
      }
    }
  }

  /** `save_attachments` writes nothing and logs no match for a container
      part, a part without a file name, or a name whose extension is missing
      or empty; an unsupported extension only gets its directory made. A file
      name whose header cannot be decoded leaves exactly one error record. */
  lemma AttachmentSkipped(folder: string, keywords: seq<string>, part: Part, env: Env, st: Store)
    ensures var st' := AttachmentEffect(folder, keywords, part, env, st);
      && Extends(st, st')
      && (IsMultipart(part) || part.filename.None? || part.filename.value == [] ==> st' == st)
      && (st'.files != st.files || st'.matchLog != st.matchLog ==>
            && !IsMultipart(part) && part.filename.Some?
            && env.decodeHeader(part.filename.value).Ok?
            && GetFileExtension(env.decodeHeader(part.filename.value).value, Some(part.payload), env.mime).Some?
            && GetFileExtension(env.decodeHeader(part.filename.value).value, Some(part.payload), env.mime).value
                 in AttachmentExtensions)
      && (!IsMultipart(part) && part.filename.Some? && part.filename.value != []
          && env.decodeHeader(part.filename.value).Raised? ==>
            st' == st.(errorLog := st.errorLog + [AttachmentError(env.decodeHeader(part.filename.value).exc)]))
  {
    if !(IsMultipart(part) || part.filename.None? || part.filename.value == []) {
      if env.decodeHeader(part.filename.value).Ok? {
        var name := env.decodeHeader(part.filename.value).value;
        var ext := GetFileExtension(name, Some(part.payload), env.mime);
        if ext.Some? && ext.value != [] {
          SaveOutcome(folder, keywords, name, ext.value, part.payload, env, st);
        }
      }
    }
  }

  /** Parts are processed one after another, so the effect of a message is
      the effect of its first parts followed by that of the rest. */
  lemma {:induction false} PartsEffectConcat(filePath: string, keywords: seq<string>, folder: string, save: bool,
                                             env: Env, a: seq<Part>, b: seq<Part>, st: Store)
    ensures PartsEffect(filePath, keywords, folder, save, env, a + b, st) ==
            PartsEffect(filePath, keywords, folder, save, env, b, PartsEffect(filePath, keywords, folder, save, env, a, st))
  {
    if b == [] {
      assert a + b == a;
    } else {
      PartsEffectConcat(filePath, keywords, folder, save, env, a, b[..|b| - 1], st);
      assert (a + b)[..|a + b| - 1] == a + b[..|b| - 1];
    }
  }

  /** Processing a message's parts only appends to the logs and adds
      directories and files. */
  lemma PartExtends(filePath: string, keywords: seq<string>, part: Part, env: Env, st: Store)
    ensures Extends(st, PartEffect(filePath, keywords, part, env, st))
  {
    PartOutcome(filePath, keywords, part, env, st);
  }

  lemma AttachmentExtends(folder: string, keywords: seq<string>, part: Part, env: Env, st: Store)
    ensures Extends(st, AttachmentEffect(folder, keywords, part, env, st))
  {
    AttachmentSkipped(folder, keywords, part, env, st);
  }

  lemma {:induction false} PartsEffectExtends(filePath: string, keywords: seq<string>, folder: string, save: bool,
                                              env: Env, parts: seq<Part>, st: Store)
    ensures Extends(st, PartsEffect(filePath, keywords, folder, save, env, parts, st))
  {
    if parts != [] {
      var before := PartsEffect(filePath, keywords, folder, save, env, parts[..|parts| - 1], st);
      PartsEffectExtends(filePath, keywords, folder, save, env, parts[..|parts| - 1], st);
      var part := parts[|parts| - 1];
      if !IsMultipart(part) {
        var searched := PartEffect(filePath, keywords, part, env, before);
        PartExtends(filePath, keywords, part, env, before);
        ExtendsTransitive(st, before, searched);
        if save {
          AttachmentExtends(folder, keywords, part, env, searched);
          ExtendsTransitive(st, searched, AttachmentEffect(folder, keywords, part, env, searched));
        }
      }
    }
  }

  /** What a part writes does not depend on what was written before it:
      processing it on any store adds exactly what processing it on the
      empty store writes. */
  lemma PartDelta(filePath: string, keywords: seq<string>, part: Part, env: Env, st: Store)
    ensures PartEffect(filePath, keywords, part, env, st) == Grow(st, PartEffect(filePath, keywords, part, env, Empty))
  {
    match DecodeContent(part, env.decodeCharset)
    case Escaped(e) =>
      FailedDelta(st, FileError(filePath, e));
    case Binary(_) =>
      if keywords == [] {
        GrowEmpty(st);
      } else {
        FailedDelta(st, FileError(filePath, BytesNotStr));
      }
    case Str(text) =>
      LoggedDelta(st, filePath, Found(text, keywords));
  }

  lemma FailedDelta(st: Store, message: string)
    ensures Failed(st, message) == Grow(st, Failed(Empty, message))
  {
    assert st.files + map[] == st.files;
  }

  lemma LoggedDelta(st: Store, path: string, found: seq<string>)
    ensures Logged(st, path, found) == Grow(st, Logged(Empty, path, found))
  {
    assert st.files + map[] == st.files;
  }

  lemma TextDelta(keywords: seq<string>, dest: string, payload: Bytes, text: Option<Outcome<string>>, st: Store)
    ensures TextEffect(keywords, dest, payload, text, st) == Grow(st, TextEffect(keywords, dest, payload, text, Empty))
  {
    match text
    case None =>
      GrowEmpty(st);
    case Some(Raised(e)) =>
      FailedDelta(st, AttachmentError(e));
    case Some(Ok(content)) =>
      if content == [] || Found(content, keywords) == [] {
        GrowEmpty(st);
      } else {
        WrittenDelta(st, dest, payload, Found(content, keywords));
      }
  }

  /** Writing an attachment and logging its matches, on any store. */
  lemma WrittenDelta(st: Store, dest: string, payload: Bytes, found: seq<string>)
    ensures Logged(st.(files := st.files[dest := payload]), dest, found) ==
            Grow(st, Logged(Empty.(files := map[dest := payload]), dest, found))
  {
    assert st.files + map[dest := payload] == st.files[dest := payload];
  }

  lemma SaveDelta(folder: string, keywords: seq<string>, name: string, ext: string, payload: Bytes, env: Env, st: Store)
    ensures SaveEffect(folder, keywords, name, ext, payload, env, st) ==
            Grow(st, SaveEffect(folder, keywords, name, ext, payload, env, Empty))
  {
    var dir := Join(Join(folder, "attachments"), ext);
    var e1 := Empty.(dirs := {dir});
    assert st.(dirs := st.dirs + {dir}) == Grow(st, e1) by {
      assert st.files + map[] == st.files;
    }
    var dest, text := AttachmentPath(folder, ext, name), AttachmentText(ext, payload, env);
    TextDelta(keywords, dest, payload, text, Grow(st, e1));
    TextDelta(keywords, dest, payload, text, e1);
    GrowAssoc(st, e1, TextEffect(keywords, dest, payload, text, Empty));
  }

  lemma AttachmentDelta(folder: string, keywords: seq<string>, part: Part, env: Env, st: Store)
    ensures AttachmentEffect(folder, keywords, part, env, st) == Grow(st, AttachmentEffect(folder, keywords, part, env, Empty))
  {
    if IsMultipart(part) || part.filename.None? || part.filename.value == [] {
      GrowEmpty(st);
    } else {
      match env.decodeHeader(part.filename.value)
      case Raised(e) =>
        FailedDelta(st, AttachmentError(e));
      case Ok(name) =>
        var ext := GetFileExtension(name, Some(part.payload), env.mime);
        if ext.None? || ext.value == [] {
          GrowEmpty(st);
        } else {
          SaveDelta(folder, keywords, name, ext.value, part.payload, env, st);
        }
    }
  }

  lemma LeafDelta(filePath: string, keywords: seq<string>, folder: string, save: bool, env: Env, part: Part, st: Store)
    ensures LeafEffect(filePath, keywords, folder, save, env, part, st) ==
            Grow(st, LeafEffect(filePath, keywords, folder, save, env, part, Empty))
  {
    if IsMultipart(part) {
      GrowEmpty(st);
    } else {
      var p0 := PartEffect(filePath, keywords, part, env, Empty);
      PartDelta(filePath, keywords, part, env, st);
      if save {
        var a0 := AttachmentEffect(folder, keywords, part, env, Empty);
        AttachmentDelta(folder, keywords, part, env, Grow(st, p0));
        AttachmentDelta(folder, keywords, part, env, p0);
        GrowAssoc(st, p0, a0);
      }
    }
  }

  /** The parts of a message together write the same on any store. */
  lemma {:induction false} PartsDelta(filePath: string, keywords: seq<string>, folder: string, save: bool,
                                      env: Env, parts: seq<Part>, st: Store)
    ensures PartsEffect(filePath, keywords, folder, save, env, parts, st) ==
            Grow(st, PartsEffect(filePath, keywords, folder, save, env, parts, Empty))
  {
    if parts == [] {
      GrowEmpty(st);
    } else {
      var init, part := parts[..|parts| - 1], parts[|parts| - 1];
      var i0 := PartsEffect(filePath, keywords, folder, save, env, init, Empty);
      var l0 := LeafEffect(filePath, keywords, folder, save, env, part, Empty);
      PartsDelta(filePath, keywords, folder, save, env, init, st);
      LeafDelta(filePath, keywords, folder, save, env, part, Grow(st, i0));
      LeafDelta(filePath, keywords, folder, save, env, part, i0);
      GrowAssoc(st, i0, l0);
    }
  }

  /** No part's outcome depends on a sibling's: whatever the parts before it
      wrote, a part adds what it would add on its own. */
  lemma PartIsolated(filePath: string, keywords: seq<string>, folder: string, save: bool,
                     env: Env, parts: seq<Part>, part: Part, st: Store)
    ensures PartsEffect(filePath, keywords, folder, save, env, parts + [part], st) ==
            Grow(PartsEffect(filePath, keywords, folder, save, env, parts, st),
                 LeafEffect(filePath, keywords, folder, save, env, part, Empty))
  {
    assert (parts + [part])[..|parts|] == parts;
    LeafDelta(filePath, keywords, folder, save, env, part, PartsEffect(filePath, keywords, folder, save, env, parts, st));
  }

  /** What a message file writes does not depend on what was written before. */
  lemma EmailDelta(filePath: string, keywords: seq<string>, folder: string, save: bool, env: Env, st: Store)
    ensures EmailEffect(filePath, keywords, folder, save, env, st) == Grow(st, EmailEffect(filePath, keywords, folder, save, env, Empty))
  {
    assert st.files + map[] == st.files;
    if env.readFile(filePath).Ok? && env.parseEmail(env.readFile(filePath).value).Ok? {
      PartsDelta(filePath, keywords, folder, save, env, env.parseEmail(env.readFile(filePath).value).value, st);
    }
  }

  /** What a plain file writes does not depend on what was written before. */
  lemma FileDelta(filePath: string, keywords: seq<string>, env: Env, st: Store)
    ensures FileEffect(filePath, keywords, env, st) == Grow(st, FileEffect(filePath, keywords, env, Empty))
  {
    match FileParser(GetFileExtension(filePath, None, env.mime))
    case None =>
      GrowEmpty(st);
    case Some(parser) =>
      match env.readFile(filePath)
      case Raised(e) =>
        FailedDelta(st, FileError(filePath, e));
      case Ok(data) =>
        match env.parse(parser, data)
        case Raised(e) =>
          FailedDelta(st, FileError(filePath, e));
        case Ok(content) =>
          if content == [] {
            GrowEmpty(st);
          } else {
            LoggedDelta(st, filePath, Found(content, keywords));
          }
  }

  lemma PartsStep(filePath: string, keywords: seq<string>, folder: string, save: bool,
                  env: Env, parts: seq<Part>, i: nat, st: Store)
    requires i < |parts|
    ensures PartsEffect(filePath, keywords, folder, save, env, parts[..i + 1], st) ==
            LeafEffect(filePath, keywords, folder, save, env, parts[i], PartsEffect(filePath, keywords, folder, save, env, parts[..i], st))
  {
    assert parts[..i + 1][..i] == parts[..i];
  }

  /** Every record in `lines` is the record of `path` with a listed keyword. */
  predicate KeyedBy(records: seq<Match>, path: string, keywords: seq<string>) {
    forall j :: 0 <= j < |records| ==> records[j].path == path && records[j].keyword in keywords
  }

  lemma KeyedByConcat(a: seq<Match>, b: seq<Match>, path: string, keywords: seq<string>)
    requires KeyedBy(a, path, keywords) && KeyedBy(b, path, keywords)
    ensures KeyedBy(a + b, path, keywords)
  {
    forall j | 0 <= j < |a + b| ensures (a + b)[j].path == path && (a + b)[j].keyword in keywords {
      if j < |a| {
        assert (a + b)[j] == a[j];
      } else {
        assert (a + b)[j] == b[j - |a|];
      }
    }
  }

  /** One part's match records are keyed by the container's path. */
  lemma PartKeyed(filePath: string, keywords: seq<string>, part: Part, env: Env, st: Store)
    ensures var st' := PartEffect(filePath, keywords, part, env, st);
      st.matchLog <= st'.matchLog && KeyedBy(st'.matchLog[|st.matchLog|..], filePath, keywords)
  {
    PartOutcome(filePath, keywords, part, env, st);
    var st' := PartEffect(filePath, keywords, part, env, st);
    var added := st'.matchLog[|st.matchLog|..];
    var d := DecodeContent(part, env.decodeCharset);
    if !d.Str? {
      assert added == [];
    }
  }

  lemma SliceConcat<T>(x: seq<T>, y: seq<T>, z: seq<T>)
    requires x <= y <= z
    ensures z[|x|..] == y[|x|..] + z[|y|..]
  {
  }

  /** Without attachment saving, every match record of a message is keyed by
      the message file's own path and names a listed keyword. */
  lemma {:induction false} BodyMatchesKeyedByContainer(filePath: string, keywords: seq<string>, folder: string,
                                                       env: Env, parts: seq<Part>, st: Store)
    ensures var st' := PartsEffect(filePath, keywords, folder, false, env, parts, st);
      st.matchLog <= st'.matchLog && KeyedBy(st'.matchLog[|st.matchLog|..], filePath, keywords)
  {
    if parts == [] {
      assert st.matchLog[|st.matchLog|..] == [];
    } else {
      var init := parts[..|parts| - 1];
      var before := PartsEffect(filePath, keywords, folder, false, env, init, st);
      BodyMatchesKeyedByContainer(filePath, keywords, folder, env, init, st);
      var part := parts[|parts| - 1];
      if !IsMultipart(part) {
        var st' := PartEffect(filePath, keywords, part, env, before);
        assert PartsEffect(filePath, keywords, folder, false, env, parts, st) == st';
        PartKeyed(filePath, keywords, part, env, before);
        var a := before.matchLog[|st.matchLog|..];
        var b := st'.matchLog[|before.matchLog|..];
        KeyedByConcat(a, b, filePath, keywords);
        SliceConcat(st.matchLog, before.matchLog, st'.matchLog);
      }
    }
  }

  /** A message file that cannot be read or parsed leaves exactly its two
      error records, naming the file and the exception, and nothing else. */
  lemma EmailUnreadable(filePath: string, keywords: seq<string>, folder: string, save: bool, env: Env, st: Store)
    requires env.readFile(filePath).Raised? || env.parseEmail(env.readFile(filePath).value).Raised?
    ensures var st' := EmailEffect(filePath, keywords, folder, save, env, st);
      var e := if env.readFile(filePath).Raised? then env.readFile(filePath).exc
               else env.parseEmail(env.readFile(filePath).value).exc;
      && st' == st.(errorLog := st.errorLog + EmailErrors(filePath, e))
      && |st'.errorLog| == |st.errorLog| + 2
  {
  }

  /** Processing a message only appends and adds. */
  lemma EmailEffectExtends(filePath: string, keywords: seq<string>, folder: string, save: bool, env: Env, st: Store)
    ensures Extends(st, EmailEffect(filePath, keywords, folder, save, env, st))
  {
    if env.readFile(filePath).Ok? && env.parseEmail(env.readFile(filePath).value).Ok? {
      PartsEffectExtends(filePath, keywords, folder, save, env, env.parseEmail(env.readFile(filePath).value).value, st);
    }
  }

  /** `process_file` reads only files whose extension its table supports: any
      other file leaves no trace, not even an error. A read or a parser that
      raises appends exactly one error record, with its message, and nothing
      else; otherwise no error is logged. It writes no file, and its matches
      are keyed by the file's path and confirmed in the parsed text; an empty
      text logs nothing. */
  lemma FileOutcome(filePath: string, keywords: seq<string>, env: Env, st: Store)
    ensures var st' := FileEffect(filePath, keywords, env, st);
      var parser := FileParser(GetFileExtension(filePath, None, env.mime));
      && Extends(st, st') && st'.dirs == st.dirs && st'.files == st.files
      && (parser.None? ==> st' == st)
      && |st'.errorLog| <= |st.errorLog| + 1
      && (|st'.errorLog| > |st.errorLog| ==> st'.matchLog == st.matchLog)
      && (parser.Some? && env.readFile(filePath).Raised? ==>
            st' == st.(errorLog := st.errorLog + [FileError(filePath, env.readFile(filePath).exc)]))
      && (parser.Some? && env.readFile(filePath).Ok? && env.parse(parser.value, env.readFile(filePath).value).Raised? ==>
            st' == st.(errorLog := st.errorLog + [FileError(filePath, env.parse(parser.value, env.readFile(filePath).value).exc)]))
      && (|st'.errorLog| > |st.errorLog| <==>
            parser.Some? && (env.readFile(filePath).Raised? || env.parse(parser.value, env.readFile(filePath).value).Raised?))
      && (st'.matchLog != st.matchLog ==>
            && parser.Some? && env.readFile(filePath).Ok?
            && env.parse(parser.value, env.readFile(filePath).value).Ok?
            && env.parse(parser.value, env.readFile(filePath).value).value != []
            && Confirmed(st'.matchLog[|st.matchLog|..], filePath,
                         env.parse(parser.value, env.readFile(filePath).value).value, keywords))
  {
    var st' := FileEffect(filePath, keywords, env, st);
    var parser := FileParser(GetFileExtension(filePath, None, env.mime));
    if parser.Some? && env.readFile(filePath).Ok? && env.parse(parser.value, env.readFile(filePath).value).Ok? {
      var content := env.parse(parser.value, env.readFile(filePath).value).value;
      if content != [] {
        FoundRecordsConfirmed(filePath, content, keywords);
        assert st'.matchLog[|st.matchLog|..] == Records(filePath, Found(content, keywords));
      }
    }
  }

  /** The match log, the error log and the output area. */
  class Sink {
    var matchLog: seq<Match>
    var errorLog: seq<string>
    var dirs: set<string>
    var files: map<string, Bytes>

    function State(): Store
      reads this
    {
      Store(matchLog, errorLog, dirs, files)
    }

    constructor ()
      ensures State() == Store([], [], {}, map[])
    {
      matchLog, errorLog, dirs, files := [], [], {}, map[];
    }

    /** One `open(log_file, "a").write(MatchLine(record))`. */
    method AppendMatch(record: Match)
      modifies this
      ensures State() == old(State()).(matchLog := old(matchLog) + [record])
    {
      matchLog := matchLog + [record];
    }

    /** One `open(error_file, "a").write(message)`. */
    method AppendError(message: string)
      modifies this
      ensures State() == old(State()).(errorLog := old(errorLog) + [message])
    {
      errorLog := errorLog + [message];
    }

    /** `os.makedirs(path, exist_ok=True)`. */
    method MakeDirs(path: string)
      modifies this
      ensures State() == old(State()).(dirs := old(dirs) + {path})
    {
      dirs := dirs + {path};
    }

    /** `open(path, "wb").write(data)`: creates or overwrites the file. */
    method WriteFile(path: string, data: Bytes)
      modifies this
      ensures State() == old(State()).(files := old(files)[path := data])
    {
      files := files[path := data];
    }
  }

  class EmailProcessor {
    const filePath: string
    const sink: Sink
    const keywords: seq<string>
    const outputFolder: string
    const env: Env

    constructor (filePath: string, sink: Sink, keywords: seq<string>, outputFolder: string, env: Env)
      ensures this.filePath == filePath && this.sink == sink && this.keywords == keywords
      ensures this.outputFolder == outputFolder && this.env == env
    {
      this.filePath := filePath;
      this.sink := sink;
      this.keywords := keywords;
      this.outputFolder := outputFolder;
      this.env := env;
    }

    /** `log_found_keyword`: one record, whose line `MatchLine` gives. */
    method LogFoundKeyword(path: string, keyword: string)
      modifies sink
      ensures sink.State() == old(sink.State()).(matchLog := old(sink.matchLog) + [Match(path, keyword)])
    {
      sink.AppendMatch(Match(path, keyword));
    }

    /** `log_error`: the message is appended as it is. */
    method LogError(message: string)
      modifies sink
      ensures sink.State() == old(sink.State()).(errorLog := old(sink.errorLog) + [message])
    {
      sink.AppendError(message);
    }

    /** The loop `for keyword in found_keywords: log_found_keyword(path, keyword)`. */
    method LogEach(path: string, found: seq<string>)
      modifies sink
      ensures sink.State() == Logged(old(sink.State()), path, found)
    {
      var i := 0;
      while i < |found|
        invariant 0 <= i <= |found|
        invariant sink.State() == Logged(old(sink.State()), path, found[..i])
      {
        LoggedStep(old(sink.State()), path, found, i);
        LogFoundKeyword(path, found[i]);
        i := i + 1;
      }
      assert found[..|found|] == found;
    }

    /** `process_part`. */
    method ProcessPart(part: Part)
      modifies sink
      ensures sink.State() == PartEffect(filePath, keywords, part, env, old(sink.State()))
    {
      var content := DecodeContent(part, env.decodeCharset);
      match content
      case Escaped(e) =>
        LogError(FileError(filePath, e));
      case Binary(_) =>
        if |keywords| > 0 {
          LogError(FileError(filePath, BytesNotStr));
        }
      case Str(s) =>
        var found := FindKeywords(s, keywords);
        LogEach(filePath, found);
    }

    /** `save_attachments`. */
    method SaveAttachments(part: Part, folderPath: string)
      modifies sink
      ensures sink.State() == AttachmentEffect(folderPath, keywords, part, env, old(sink.State()))
    {
      if IsMultipart(part) || part.filename.None? || part.filename.value == [] {
        return;
      }
      var decoded := env.decodeHeader(part.filename.value);
      if decoded.Raised? {
        LogError(AttachmentError(decoded.exc));
        return;
      }
      var name := decoded.value;
      var extension := GetFileExtension(name, Some(part.payload), env.mime);
      if extension.None? || extension.value == [] {
        return;
      }
      var ext := extension.value;
      var attachmentsDir := Join(Join(folderPath, "attachments"), ext);
      sink.MakeDirs(attachmentsDir);
      var text := AttachmentText(ext, part.payload, env);
      if text == None {
        return;
      }
      if text.value.Raised? {
        LogError(AttachmentError(text.value.exc));
        return;
      }
      var content := text.value.value;
      if content != [] {
        var found := FindKeywords(content, keywords);
        if found != [] {
          var filepath := Join(attachmentsDir, Sanitize(name));
          sink.WriteFile(filepath, part.payload);
          LogEach(filepath, found);
        }
      }
    }

    /** `process_email`: the message's parts are processed in `walk()` order
        (the tasks gathered there run here one after another). */
    method ProcessEmail(folderPath: string, saveAttachments: bool)
      modifies sink
      ensures sink.State() == EmailEffect(filePath, keywords, folderPath, saveAttachments, env, old(sink.State()))
    {
      var data := env.readFile(filePath);
      var msg: Outcome<seq<Part>> := if data.Raised? then Raised(data.exc) else env.parseEmail(data.value);
      if msg.Raised? {
        var errors := EmailErrors(filePath, msg.exc);
        LogError(errors[0]);
        LogError(errors[1]);
        assert old(sink.errorLog) + [errors[0]] + [errors[1]] == old(sink.errorLog) + errors;
        return;
      }
      ProcessParts(msg.value, folderPath, saveAttachments);
    }

    /** The loop of `process_email` over `msg.walk()`: multipart containers
        are skipped, every other part is searched and, when asked, saved. */
    method ProcessParts(parts: seq<Part>, folderPath: string, saveAttachments: bool)
      modifies sink
      ensures sink.State() == PartsEffect(filePath, keywords, folderPath, saveAttachments, env, parts, old(sink.State()))
    {
      var i := 0;
      while i < |parts|
        invariant 0 <= i <= |parts|
        invariant sink.State() == PartsEffect(filePath, keywords, folderPath, saveAttachments, env, parts[..i], old(sink.State()))
      {
        PartsStep(filePath, keywords, folderPath, saveAttachments, env, parts, i, old(sink.State()));
        ProcessLeaf(parts[i], folderPath, saveAttachments);
        i := i + 1;
      }
      assert parts[..|parts|] == parts;
    }

    /** The body of the loop over `msg.walk()`. */
    method ProcessLeaf(part: Part, folderPath: string, saveAttachments: bool)
      modifies sink
      ensures sink.State() == LeafEffect(filePath, keywords, folderPath, saveAttachments, env, part, old(sink.State()))
    {
      if !IsMultipart(part) {
        ProcessPart(part);
        if saveAttachments {
          SaveAttachments(part, folderPath);
        }
      }
    }

    /** `process_file`: the file named by its argument is searched (the
        processor's own path is not consulted). */
    method ProcessFile(path: string)
      modifies sink
      ensures sink.State() == FileEffect(path, keywords, env, old(sink.State()))
    {
      var extension := GetFileExtension(path, None, env.mime);
      var parser := FileParser(extension);
      if parser.None? {
        return;
      }
      var data := env.readFile(path);
      if data.Raised? {
        LogError(FileError(path, data.exc));
        return;
      }
      var text := env.parse(parser.value, data.value);
      if text.Raised? {
        LogError(FileError(path, text.exc));
        return;
      }
      var content := text.value;
      if content != [] {
        var found := FindKeywords(content, keywords);
        LogEach(path, found);
      }
    }
  }
}
