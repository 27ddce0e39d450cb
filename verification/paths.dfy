/**
 * File names and paths as the scanner shapes them: `sanitize_filename`,
 * POSIX `os.path.splitext` / `split` / `join`, the two-segment path written to
 * the match log, the attachment destination, and `get_file_extension`.
 */
module Paths {
  import opened Basics
  import opened Text

  /** The characters of the class `[\/:*?"<>|]` in `sanitize_filename`. */
  predicate Unsafe(c: char) {
    c == '/' || c == ':' || c == '*' || c == '?' || c == '"' || c == '<' || c == '>' || c == '|'
  }

  /** `sanitize_filename`: every unsafe character becomes `_`. */
  function Sanitize(name: string): (r: string)
    ensures |r| == |name|
    ensures forall i :: 0 <= i < |name| ==> r[i] == if Unsafe(name[i]) then '_' else name[i]
  {
    if name == [] then [] else [if Unsafe(name[0]) then '_' else name[0]] + Sanitize(name[1..])
  }

  /** A sanitized name holds no unsafe character (so no `/`), and any other
      character, a backslash included, is where it was. */
  lemma SanitizeSafe(name: string)
    ensures forall i :: 0 <= i < |name| ==> !Unsafe(Sanitize(name)[i])
    ensures forall i :: 0 <= i < |name| && !Unsafe(name[i]) ==> Sanitize(name)[i] == name[i]
    ensures '/' !in Sanitize(name)
  {
  }

  /** Sanitizing twice is sanitizing once. */
  lemma SanitizeIdempotent(name: string)
    ensures Sanitize(Sanitize(name)) == Sanitize(name)
  {
    var s := Sanitize(name);
    assert forall i :: 0 <= i < |s| ==> Sanitize(s)[i] == s[i];
  }

  /** `os.path.join(a, b)` on POSIX: an absolute `b` replaces `a`, otherwise a
      single `/` is added unless `a` is empty or already ends in one. */
  function Join(a: string, b: string): string {
    if StartsWith(b, "/") then b
    else if a == [] || EndsWith(a, "/") then a + b
    else a + "/" + b
  }

  predicate AllSlashes(s: string) {
    forall i :: 0 <= i < |s| ==> s[i] == '/'
  }

  function RStripSlashes(s: string): (r: string)
    ensures |r| <= |s| && r == s[..|r|]
  {
    if s != [] && s[|s| - 1] == '/' then RStripSlashes(s[..|s| - 1]) else s
  }

  /** `os.path.split(p)` on POSIX: the tail after the last `/`, and the head
      with its trailing slashes removed unless it is nothing but slashes. */
  function PathSplit(p: string): (r: (string, string))
    ensures '/' !in r.1
  {
    var i := RFind(p, '/') + 1;
    var head := p[..i];
    var tail := p[i..];
    if head != [] && !AllSlashes(head) then (RStripSlashes(head), tail) else (head, tail)
  }

  /** The path `log_found_keyword` writes: `join(sep, lastdir, basename)` of
      the path (on POSIX `splitdrive` finds no drive). */
  function LogPath(p: string): string {
    var (dirs, name) := PathSplit(p);
    var (_, last) := PathSplit(dirs);
    Join(Join("/", last), name)
  }

  lemma NoLeadingSlash(s: string)
    requires '/' !in s
    ensures !StartsWith(s, "/")
  {
    if s != [] { assert s[0] in s; }
  }

  lemma AppendKeepsEnds(a: string, b: string)
    ensures EndsWith(a + b, b)
    ensures StartsWith(a, "/") ==> StartsWith(a + b, "/")
  {
    assert (a + b)[|a|..] == b;
    if StartsWith(a, "/") { assert (a + b)[..1] == a[..1]; }
  }

  /** The logged path always starts at `/` and ends with the file's name. */
  lemma LogPathKeepsName(p: string)
    ensures StartsWith(LogPath(p), "/")
    ensures EndsWith(LogPath(p), PathSplit(p).1)
  {
    var name := PathSplit(p).1;
    var last := PathSplit(PathSplit(p).0).1;
    NoLeadingSlash(last);
    NoLeadingSlash(name);
    assert EndsWith("/", "/");
    var j := Join("/", last);
    assert j == "/" + last;
    AppendKeepsEnds("/", last);
    if j == [] || EndsWith(j, "/") {
      AppendKeepsEnds(j, name);
    } else {
      AppendKeepsEnds(j, "/");
      AppendKeepsEnds(j + "/", name);
    }
  }

  lemma RFindAt(s: string, c: char, k: int)
    requires -1 <= k < |s| && (k >= 0 ==> s[k] == c)
    requires forall j :: k < j < |s| ==> s[j] != c
    ensures RFind(s, c) == k
  {
  }

  /** Splitting `pre dir/name` gives `pre dir` and `name`. */
  lemma PathSplitLast(pre: string, dir: string, name: string)
    requires dir != [] && '/' !in dir && '/' !in name
    ensures PathSplit(pre + dir + "/" + name) == (pre + dir, name)
  {
    var p := pre + dir + "/" + name;
    var k := |pre| + |dir|;
    assert p[k] == '/';
    assert forall j :: k < j < |p| ==> p[j] == name[j - k - 1];
    RFindAt(p, '/', k);
    var head := pre + dir + "/";
    assert p[..k + 1] == head;
    assert p[k + 1..] == name;
    assert head[..|head| - 1] == pre + dir;
    assert (pre + dir)[|pre + dir| - 1] == dir[|dir| - 1];
    assert dir[|dir| - 1] in dir;
    assert RStripSlashes(head) == pre + dir;
    assert !AllSlashes(head) by { assert head[|pre|] == dir[0]; assert dir[0] in dir; }
  }

  /** The tail of `pre dir`, where `pre` is empty or ends in `/`, is `dir`. */
  lemma PathSplitTail(pre: string, dir: string)
    requires pre == [] || EndsWith(pre, "/")
    requires '/' !in dir
    ensures PathSplit(pre + dir).1 == dir
  {
    var q := pre + dir;
    assert forall j :: |pre| <= j < |q| ==> q[j] == dir[j - |pre|];
    if pre != [] {
      assert q[|pre| - 1] == pre[|pre| - 1] == '/';
    }
    RFindAt(q, '/', |pre| - 1);
    assert q[|pre|..] == dir;
  }

  /** Of `…/dir/name` only `/dir/name` is logged. */
  lemma LogPathShape(pre: string, dir: string, name: string)
    requires pre == [] || EndsWith(pre, "/")
    requires dir != [] && '/' !in dir && '/' !in name
    ensures LogPath(pre + dir + "/" + name) == "/" + dir + "/" + name
  {
    PathSplitLast(pre, dir, name);
    PathSplitTail(pre, dir);
    NoLeadingSlash(dir);
    NoLeadingSlash(name);
    assert EndsWith("/", "/");
    assert Join("/", dir) == "/" + dir;
    assert !EndsWith("/" + dir, "/") by {
      assert ("/" + dir)[|dir|] == dir[|dir| - 1];
      assert dir[|dir| - 1] in dir;
    }
  }

  /** Where `save_attachments` writes an attachment:
      `join(folder, "attachments", ext, sanitize(name))`. */
  function AttachmentPath(folder: string, ext: string, name: string): string {
    Join(Join(Join(folder, "attachments"), ext), Sanitize(name))
  }

  /** For a plain relative output folder the destination is the expected
      `<folder>/attachments/<ext>/<sanitized name>`. */
  lemma AttachmentPathShape(folder: string, ext: string, name: string)
    requires folder != [] && !EndsWith(folder, "/")
    requires ext != [] && '/' !in ext
    requires name != []
    ensures AttachmentPath(folder, ext, name) == folder + "/attachments/" + ext + "/" + Sanitize(name)
  {
    var s := Sanitize(name);
    SanitizeSafe(name);
    assert !StartsWith(s, "/") by { assert s[0] in s; }
    assert !StartsWith(ext, "/") by { assert ext[0] in ext; }
    assert !EndsWith(ext, "/") by { assert ext[|ext| - 1] in ext; }
    var a := Join(folder, "attachments");
    assert a == folder + "/attachments";
    assert !EndsWith(a, "/");
    var b := Join(a, ext);
    assert b == folder + "/attachments/" + ext;
    assert !EndsWith(b, "/") by { assert b[|b| - 1] == ext[|ext| - 1]; }
  }

  predicate AllDots(s: string) {
    forall i :: 0 <= i < |s| ==> s[i] == '.'
  }

  /** `os.path.splitext(p)` on POSIX: the suffix from the last `.` of the last
      path segment, unless everything before that dot in the segment is dots. */
  function SplitExt(p: string): (string, string) {
    var sepIndex := RFind(p, '/');
    var dotIndex := RFind(p, '.');
    if dotIndex > sepIndex && !AllDots(p[sepIndex + 1..dotIndex]) then (p[..dotIndex], p[dotIndex..])
    else (p, [])
  }

  /** `splitext` cuts the path in two: the suffix, when there is one, is a dot
      followed by text free of dots and slashes. */
  lemma SplitExtParts(p: string)
    ensures SplitExt(p).0 + SplitExt(p).1 == p
    ensures SplitExt(p).1 == [] || (SplitExt(p).1[0] == '.' && '.' !in SplitExt(p).1[1..] && '/' !in SplitExt(p).1)
  {
    var sepIndex := RFind(p, '/');
    var dotIndex := RFind(p, '.');
    if dotIndex > sepIndex && !AllDots(p[sepIndex + 1..dotIndex]) {
      assert p[..dotIndex] + p[dotIndex..] == p;
      NotInTail(p, dotIndex + 1, '.');
      NotInTail(p, dotIndex, '/');
      assert p[dotIndex..][1..] == p[dotIndex + 1..];
    } else {
      assert p + [] == p;
    }
  }

  /** A character absent from every position from `k` on is absent from the
      tail `p[k..]`. */
  lemma NotInTail(p: string, k: nat, c: char)
    requires k <= |p|
    requires forall j :: k <= j < |p| ==> p[j] != c
    ensures c !in p[k..]
  {
    forall i | 0 <= i < |p| - k
      ensures p[k..][i] != c
    {
      assert p[k..][i] == p[k + i];
    }
  }

  /** A name `stem.ext` (stem not all dots, ext without dots) in any directory
      splits at its last dot. */
  lemma SplitExtOfName(dir: string, stem: string, ext: string)
    requires dir == [] || EndsWith(dir, "/")
    requires '/' !in stem && '/' !in ext && '.' !in ext
    requires !AllDots(stem)
    ensures SplitExt(dir + stem + "." + ext) == (dir + stem, "." + ext)
  {
    var head := dir + stem;
    var p := head + "." + ext;
    LastDot(head, ext);
    if dir != [] {
      assert p[|dir| - 1] == dir[|dir| - 1] == '/';
    }
    forall j | |dir| <= j < |p|
      ensures p[j] != '/'
    {
      if j < |head| {
        assert p[j] == stem[j - |dir|];
      } else if j > |head| {
        assert p[j] == ext[j - |head| - 1];
      }
    }
    RFindAt(p, '/', |dir| - 1);
    assert p[|dir|..|head|] == stem;
    SplitExtAt(p, |dir| - 1, |head|);
    assert p[..|head|] == head;
    assert p[|head|..] == "." + ext;
  }

  /** `splitext` at a known last slash and last dot. */
  lemma SplitExtAt(p: string, sep: int, dot: int)
    requires RFind(p, '/') == sep && RFind(p, '.') == dot
    requires sep < dot && !AllDots(p[sep + 1..dot])
    ensures SplitExt(p) == (p[..dot], p[dot..])
  {
  }

  /** The dot before a dot-free tail is the last dot. */
  lemma LastDot(head: string, ext: string)
    requires '.' !in ext
    ensures RFind(head + "." + ext, '.') == |head|
  {
    var p := head + "." + ext;
    assert p[|head|] == '.';
    forall j | |head| < j < |p|
      ensures p[j] != '.'
    {
      assert p[j] == ext[j - |head| - 1];
    }
    RFindAt(p, '.', |head|);
  }

  /** A name made of dots and then a dot-free word (`.bashrc`) has no
      extension. */
  lemma SplitExtHidden(dir: string, dots: string, word: string)
    requires dir == [] || EndsWith(dir, "/")
    requires dots != [] && forall i :: 0 <= i < |dots| ==> dots[i] == '.'
    requires '/' !in word && '.' !in word
    ensures SplitExt(dir + dots + word).1 == []
  {
    var p := dir + dots + word;
    var d := |dir| + |dots| - 1;
    assert p[d] == '.';
    assert forall j :: d < j < |p| ==> p[j] == word[j - d - 1];
    assert RFind(p, '.') == d;
    assert forall j :: |dir| <= j <= d ==> p[j] == dots[j - |dir|];
    var s := RFind(p, '/');
    assert s == |dir| - 1 by {
      if dir != [] { assert p[|dir| - 1] == '/'; }
    }
    assert AllDots(p[s + 1..d]);
  }

  /** `s.lstrip('.')`. */
  function LStripDots(s: string): (r: string)
    ensures |r| <= |s| && r == s[|s| - |r|..]
    ensures r == [] || r[0] != '.'
  {
    if s != [] && s[0] == '.' then LStripDots(s[1..]) else s
  }

  /** `mimetypes.guess_type` (its type component) and
      `mimetypes.guess_extension`, whose tables are outside this model. */
  datatype MimeDb = MimeDb(guessType: string -> Option<string>, guessExtension: string -> Option<string>)

  /** `get_file_extension(filename, content)`. The `splitext` suffix wins;
      without one the MIME tables are consulted. The content-sniffing branch
      always ends in `None`: `magic` is the bytes constant imported from
      `pandas.io.sas.sas_constants`, so `magic.Magic` raises `AttributeError`,
      which the handler turns into `None`; with no content the function falls
      off its end, also `None`. */
  function GetFileExtension(filename: string, content: Option<Bytes>, db: MimeDb): Option<string> {
    var ext := SplitExt(filename).1;
    if ext != [] then Some(Lower(LStripDots(ext)))
    else
      match db.guessType(filename)
      case Some(mime) =>
        if mime != [] then
          match db.guessExtension(mime)
          case Some(e) => if e != [] then Some(Lower(LStripDots(e))) else None
          case None => None
        else None
      case None => None
  }

  /** A name with a `splitext` suffix yields that suffix without its dot,
      lowered, whatever the MIME tables say; it holds no `.` and no `/`. */
  lemma ExtensionFromSuffix(filename: string, content: Option<Bytes>, db: MimeDb)
    requires SplitExt(filename).1 != []
    ensures GetFileExtension(filename, content, db) == Some(Lower(SplitExt(filename).1[1..]))
    ensures '.' !in GetFileExtension(filename, content, db).value
    ensures '/' !in GetFileExtension(filename, content, db).value
  {
    SplitExtParts(filename);
    SuffixWord(SplitExt(filename).1);
  }

  /** A suffix `.word` loses exactly its dot to `lstrip('.')`, and its word,
      lowered, holds no `.` and no `/`. */
  lemma SuffixWord(ext: string)
    requires ext != [] && ext[0] == '.' && '.' !in ext[1..] && '/' !in ext
    ensures LStripDots(ext) == ext[1..]
    ensures '.' !in Lower(ext[1..]) && '/' !in Lower(ext[1..])
  {
    assert LStripDots(ext[1..]) == ext[1..] by {
      assert ext[1..] == [] || ext[1..][0] in ext[1..];
    }
    var r := Lower(ext[1..]);
    forall i | 0 <= i < |r| ensures r[i] != '.' && r[i] != '/' {
      assert ext[1..][i] in ext[1..];
      assert ext[1..][i] == ext[i + 1];
    }
  }

  /** The bytes handed to `get_file_extension` never change its answer. This
      only records that the sniffing branch is dead: `GetFileExtension` does
      not read `content`, so the lemma holds by definition. */
  lemma ExtensionIgnoresContent(filename: string, c1: Option<Bytes>, c2: Option<Bytes>, db: MimeDb)
    ensures GetFileExtension(filename, c1, db) == GetFileExtension(filename, c2, db)
  {
  }

  /** Names with no `splitext` suffix and unknown to the MIME tables have no
      extension. */
  lemma ExtensionUnknown(filename: string, content: Option<Bytes>, db: MimeDb)
    requires SplitExt(filename).1 == []
    requires db.guessType(filename).None?
    ensures GetFileExtension(filename, content, db).None?
  {
  }

  /** A name `stem.ext` in any directory, whose stem is not all dots (it may
      hold dots of its own, as in `data.tar.gz`), has the extension `ext`
      lowered — the empty one for a trailing dot — whatever the tables and
      the content. */
  lemma ExtensionOfName(dir: string, stem: string, ext: string, content: Option<Bytes>, db: MimeDb)
    requires dir == [] || EndsWith(dir, "/")
    requires '/' !in stem && '/' !in ext && '.' !in ext
    requires !AllDots(stem)
    ensures GetFileExtension(dir + stem + "." + ext, content, db) == Some(Lower(ext))
  {
    var name := dir + stem + "." + ext;
    SplitExtOfName(dir, stem, ext);
    ExtensionFromSuffix(name, content, db);
    assert ("." + ext)[1..] == ext;
  }
}
