/**
 * The keyword matcher that the scanner repeats in `process_part`,
 * `save_attachments` and `process_file`, and the parsing of the keyword file.
 */
module Keywords {
  import opened Text

  /** `keyword.lower() in content.lower()`. */
  predicate Matches(content: string, keyword: string) {
    Contains(Lower(content), Lower(keyword))
  }

  /** The list `found_keywords` that the scan loop builds: the keywords that
      match, in keyword order, duplicates kept. Defined on a growing prefix of
      the keyword list, one keyword per step, like the loop. */
  function Found(content: string, keywords: seq<string>): seq<string> {
    if keywords == [] then []
    else
      var k := keywords[|keywords| - 1];
      var prev := Found(content, keywords[..|keywords| - 1]);
      if Matches(content, k) then prev + [k] else prev
  }

  /** The scan loop: one membership test per keyword, appending the hits. */
  method FindKeywords(content: string, keywords: seq<string>) returns (found: seq<string>)
    ensures found == Found(content, keywords)
    ensures forall k :: k in found <==> k in keywords && Matches(content, k)
  {
    found := [];
    var lowered := Lower(content);
    var i := 0;
    while i < |keywords|
      invariant 0 <= i <= |keywords|
      invariant found == Found(content, keywords[..i])
    {
      assert keywords[..i + 1][..i] == keywords[..i];
      if Contains(lowered, Lower(keywords[i])) {
        found := found + [keywords[i]];
      }
      i := i + 1;
    }
    assert keywords[..|keywords|] == keywords;
    FoundMembers(content, keywords);
  }

  /** A keyword is reported exactly when it is in the list and matches. */
  lemma {:induction false} FoundMembers(content: string, keywords: seq<string>)
    ensures forall k :: k in Found(content, keywords) <==> k in keywords && Matches(content, k)
  {
    if keywords != [] {
      var init := keywords[..|keywords| - 1];
      FoundMembers(content, init);
      assert keywords == init + [keywords[|keywords| - 1]];
    }
  }

  /** Order is kept: the hits among `a + b` are the hits among `a` followed by
      the hits among `b`. */
  lemma {:induction false} FoundAppend(content: string, a: seq<string>, b: seq<string>)
    ensures Found(content, a + b) == Found(content, a) + Found(content, b)
  {
    if b == [] {
      assert a + b == a;
    } else {
      var init := b[..|b| - 1];
      FoundAppend(content, a, init);
      assert (a + b)[..|a + b| - 1] == a + init;
    }
  }

  /** Duplicates are kept: a matching keyword is reported as many times as it
      is listed, a non-matching one never. */
  lemma {:induction false} FoundMultiplicity(content: string, keywords: seq<string>, k: string)
    ensures multiset(Found(content, keywords))[k] ==
            if Matches(content, k) then multiset(keywords)[k] else 0
  {
    if keywords != [] {
      var init := keywords[..|keywords| - 1];
      FoundMultiplicity(content, init, k);
      assert keywords == init + [keywords[|keywords| - 1]];
    }
  }

  /** Matching ignores case on both sides (for the characters `Lower` folds). */
  lemma CaseInsensitive(content: string, keyword: string)
    ensures Matches(content, keyword) == Matches(Lower(content), keyword)
    ensures Matches(content, keyword) == Matches(content, Lower(keyword))
  {
    LowerIdempotent(content);
    LowerIdempotent(keyword);
  }

  /** An empty keyword (a trailing comma in the keyword file yields one)
      matches every content, the empty one included. */
  lemma EmptyKeywordMatches(content: string)
    ensures Matches(content, "")
  {
    assert Lower("") == "";
  }

  /** A keyword matches wherever its lowered form sits inside the lowered
      content. */
  lemma MatchesInside(before: string, keyword: string, after: string)
    ensures Matches(before + keyword + after, keyword)
  {
    var c := before + keyword + after;
    assert Lower(c) == Lower(before) + Lower(keyword) + Lower(after) by {
      assert forall i :: 0 <= i < |c| ==>
        Lower(c)[i] == (Lower(before) + Lower(keyword) + Lower(after))[i];
    }
    ContainsInfix(Lower(before), Lower(keyword), Lower(after));
  }

  /** `[keyword.strip() for keyword in text.split(",")]`. */
  function ParseKeywords(text: string): seq<string> {
    var pieces := Split(text, ',');
    seq(|pieces|, i requires 0 <= i < |pieces| => Strip(pieces[i]))
  }

  /** There is one keyword more than the file has commas, and every parsed
      keyword is comma-free and already stripped. */
  lemma ParsedKeywordsClean(text: string)
    ensures |ParseKeywords(text)| == Occurrences(text, ',') + 1
    ensures forall i :: 0 <= i < |ParseKeywords(text)| ==>
      ',' !in ParseKeywords(text)[i] && Strip(ParseKeywords(text)[i]) == ParseKeywords(text)[i]
  {
    var r := ParseKeywords(text);
    forall i | 0 <= i < |r| ensures ',' !in r[i] && Strip(r[i]) == r[i] {
      StripIdempotent(Split(text, ',')[i]);
    }
  }

  /** Writing stripped, comma-free keywords separated by commas and parsing the
      file gives back the same list. */
  lemma ParseKeywordsRoundTrip(ks: seq<string>)
    requires |ks| >= 1
    requires forall i :: 0 <= i < |ks| ==> ',' !in ks[i] && Strip(ks[i]) == ks[i]
    ensures ParseKeywords(JoinWith(ks, ',')) == ks
  {
    SplitJoin(ks, ',');
  }
}
