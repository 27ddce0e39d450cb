/**
 * The blocks of the log page: one `log-entry` block per line of the match
 * log that is not blank, and one `error-entry` block for the error text.
 */
module HtmlBlocks {
  import opened Basics
  import opened Text

  /** The two fields of the server's reply the page reads; either may be absent. */
  datatype Response = Response(log: Option<string>, errors: Option<string>)

  function LogEntry(line: string): string {
    "<div class='log-entry'>" + line + "</div>"
  }

  function ErrorEntry(errors: string): string {
    "<div class='error-entry'>" + errors + "</div>"
  }

  /** A line that strips to nothing (`StripEmptyIff`): it gets no block. */
  predicate Blank(line: string) {
    AllSpace(line)
  }

  /** The lines that get a block: those that are not blank, in order. */
  function Kept(lines: seq<string>): (r: seq<string>)
    ensures |r| <= |lines|
    ensures forall j :: 0 <= j < |r| ==> !Blank(r[j])
  {
    if lines == [] then []
    else
      var before := Kept(lines[..|lines| - 1]);
      var line := lines[|lines| - 1];
      if !Blank(line) then before + [line] else before
  }

  /** The kept lines are lines of the input, and every line that is not
      blank is kept. */
  lemma {:induction false} KeptMembers(lines: seq<string>)
    ensures forall x :: x in Kept(lines) ==> x in lines
    ensures forall j :: 0 <= j < |lines| && !Blank(lines[j]) ==> lines[j] in Kept(lines)
  {
    if lines != [] {
      var init := lines[..|lines| - 1];
      KeptMembers(init);
      forall x | x in init ensures x in lines {
        var j :| 0 <= j < |init| && init[j] == x;
        assert lines[j] == x;
      }
      forall j | 0 <= j < |lines| && !Blank(lines[j]) ensures lines[j] in Kept(lines) {
        if j < |init| {
          assert lines[j] == init[j];
        }
      }
    }
  }

  /** Lines are kept in log order: the kept lines of `a + b` are those of
      `a` followed by those of `b`. */
  lemma {:induction false} KeptAppend(a: seq<string>, b: seq<string>)
    ensures Kept(a + b) == Kept(a) + Kept(b)
  {
    if b == [] {
      assert a + b == a;
    } else {
      KeptAppend(a, b[..|b| - 1]);
      assert (a + b)[..|a + b| - 1] == a + b[..|b| - 1];
    }
  }

  /** Each line that is not blank gets exactly one block per occurrence in
      the log; a blank line gets none. */
  lemma {:induction false} KeptMultiplicity(lines: seq<string>, x: string)
    ensures multiset(Kept(lines))[x] == if Blank(x) then 0 else multiset(lines)[x]
  {
    if lines != [] {
      var init, line := lines[..|lines| - 1], lines[|lines| - 1];
      KeptMultiplicity(init, x);
      assert lines == init + [line];
    }
  }

  /** The blocks of the kept lines, one after another. */
  function Entries(kept: seq<string>): string {
    if kept == [] then [] else Entries(kept[..|kept| - 1]) + LogEntry(kept[|kept| - 1])
  }

  function LogPart(r: Response): string {
    if r.log.Some? then Entries(Kept(Split(r.log.value, '\n'))) else []
  }

  function ErrorPart(r: Response): string {
    if r.errors.Some? && !Blank(r.errors.value) then ErrorEntry(r.errors.value) else []
  }

  lemma AllSpaceConcat(a: string, b: string)
    ensures AllSpace(a + b) <==> AllSpace(a) && AllSpace(b)
  {
    if AllSpace(a + b) {
      forall i | 0 <= i < |a| ensures IsSpace(a[i]) { assert (a + b)[i] == a[i]; }
      forall i | 0 <= i < |b| ensures IsSpace(b[i]) { assert (a + b)[|a| + i] == b[i]; }
    }
  }

  predicate AllBlank(lines: seq<string>) {
    forall j :: 0 <= j < |lines| ==> Blank(lines[j])
  }

  /** Newline-joined lines are all whitespace exactly when every line is. */
  lemma {:induction false} JoinedBlank(ps: seq<string>)
    ensures AllSpace(JoinWith(ps, '\n')) <==> AllBlank(ps)
  {
    if |ps| > 1 {
      JoinedBlank(ps[1..]);
      AllSpaceConcat(ps[0] + ['\n'], JoinWith(ps[1..], '\n'));
      AllSpaceConcat(ps[0], ['\n']);
      assert IsSpace('\n');
      if AllBlank(ps) {
        assert forall j :: 0 <= j < |ps| - 1 ==> ps[1..][j] == ps[j + 1];
      }
      if AllSpace(ps[0]) && AllBlank(ps[1..]) {
        forall j | 0 <= j < |ps| ensures Blank(ps[j]) {
          if j > 0 { assert ps[j] == ps[1..][j - 1]; }
        }
      }
    }
  }

  /** No line is kept exactly when every line is whitespace only. */
  lemma {:induction false} KeptEmptyIff(lines: seq<string>)
    ensures Kept(lines) == [] <==> AllBlank(lines)
  {
    if lines != [] {
      var init := lines[..|lines| - 1];
      var line := lines[|lines| - 1];
      KeptEmptyIff(init);
      if AllBlank(lines) {
        assert forall j :: 0 <= j < |init| ==> init[j] == lines[j];
      }
      if AllBlank(init) && Blank(line) {
        forall j | 0 <= j < |lines| ensures Blank(lines[j]) {
          if j < |init| { assert lines[j] == init[j]; }
        }
      }
    }
  }

  /** The page has no log block exactly when the log is absent or all
      whitespace (blank lines, newlines included, produce nothing). */
  lemma NoLogBlocksIff(r: Response)
    ensures LogPart(r) == [] <==> r.log.None? || AllSpace(r.log.value)
  {
    if r.log.Some? {
      var lines := Split(r.log.value, '\n');
      JoinSplit(r.log.value, '\n');
      JoinedBlank(lines);
      KeptEmptyIff(lines);
      var kept := Kept(lines);
      if kept != [] {
        assert |Entries(kept)| >= |LogEntry(kept[|kept| - 1])|;
      }
    }
  }

  /** A log with no blank line keeps every line, verbatim and in order. */
  lemma {:induction false} KeptAllLines(lines: seq<string>)
    requires forall j :: 0 <= j < |lines| ==> !Blank(lines[j])
    ensures Kept(lines) == lines
  {
    if lines != [] {
      var init := lines[..|lines| - 1];
      assert forall j :: 0 <= j < |init| ==> init[j] == lines[j];
      KeptAllLines(init);
      assert init + [lines[|lines| - 1]] == lines;
    }
  }

  /** The error block is there exactly when the reply has an error text that
      does not strip to nothing, and it holds that text whole. */
  lemma ErrorPartIff(r: Response)
    ensures ErrorPart(r) != [] <==> r.errors.Some? && Strip(r.errors.value) != []
    ensures ErrorPart(r) != [] ==> ErrorPart(r) == ErrorEntry(r.errors.value)
  {
    if r.errors.Some? {
      StripEmptyIff(r.errors.value);
    }
  }

  /** Every line of the log that is not blank gets its own block. */
  lemma LineInLog(r: Response, line: string)
    requires r.log.Some? && line in Split(r.log.value, '\n') && Strip(line) != []
    ensures Contains(LogPart(r), LogEntry(line))
  {
    StripEmptyIff(line);
    var lines := Split(r.log.value, '\n');
    var i :| 0 <= i < |lines| && lines[i] == line;
    KeptMembers(lines);
    var kept := Kept(lines);
    var j :| 0 <= j < |kept| && kept[j] == line;
    EntryOf(kept, j);
  }

  /** Each kept line's block occurs in the concatenation. */
  lemma {:induction false} EntryOf(kept: seq<string>, j: nat)
    requires j < |kept|
    ensures Contains(Entries(kept), LogEntry(kept[j]))
  {
    var init := kept[..|kept| - 1];
    var e := LogEntry(kept[|kept| - 1]);
    if j == |kept| - 1 {
      ContainsInfix(Entries(init), e, []);
      assert Entries(init) + e + [] == Entries(init) + e;
    } else {
      assert init[j] == kept[j];
      EntryOf(init, j);
      ContainsExtend(Entries(init), e, LogEntry(kept[j]));
    }
  }

  lemma ContainsWithin(t: string, m: string, e: string, c: string, p: string)
    requires Contains(m, p)
    ensures Contains(t + m + e + c, p)
  {
    var i := ContainsWitness(m, p);
    var s := t + m + e + c;
    assert s[|t| + i..|t| + i + |p|] == m[i..i + |p|];
    ContainsAt(s, p, |t| + i);
  }

  lemma Framed(t: string, l: string, e: string, c: string)
    ensures StartsWith(t + l + e + c, t) && EndsWith(t + l + e + c, c)
  {
    assert (t + l + e + c)[..|t|] == t;
    assert (t + l + e + c)[|t + l + e|..] == c;
  }

  /** Regrouping and empty appends, kept as lemmas so that the page literals
      are not unfolded where they apply. */
  lemma AppendEmpty(s: string)
    ensures s + [] == s
  {
  }

  lemma Assoc(a: string, b: string, c: string)
    ensures a + b + c == a + (b + c)
  {
  }

  /** The loop of `generate_html_log` over the log's lines: a block is
      appended for each line that does not strip to nothing. */
  method AppendBlocks(start: string, lines: seq<string>) returns (html: string)
    ensures html == start + Entries(Kept(lines))
  {
    html := start;
    var i := 0;
    assert html == start + [];
    while i < |lines|
      invariant 0 <= i <= |lines|
      invariant html == start + Entries(Kept(lines[..i]))
    {
      assert lines[..i + 1][..i] == lines[..i];
      StripEmptyIff(lines[i]);
      if Strip(lines[i]) != [] {
        Assoc(start, Entries(Kept(lines[..i])), LogEntry(lines[i]));
        html := html + LogEntry(lines[i]);
      }
      i := i + 1;
    }
    assert lines[..|lines|] == lines;
  }

}
