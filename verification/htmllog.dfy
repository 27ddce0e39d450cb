/**
 * `generate_html_log`: the client renders the server's JSON reply as an HTML
 * page: a fixed head and banner, one `log-entry` block per non-blank line of
 * the match log, and one `error-entry` block holding the whole error text
 * when it is not blank.
 */
module HtmlLog {
  import opened Text
  import opened HtmlBlocks

  /** The style sheet, character for character. */
  const Styles: string := @"
    <style>
        body {
            font-family: 'Segoe UI', Tahoma, Geneva, Verdana, sans-serif;
            margin: 0;
            padding: 0;
            background-color: #f4f4f4;
            color: #333;
        }
        .container {
            width: 80%;
            margin: auto;
            overflow: hidden;
        }
        header {
            background: #50b3a2;
            color: #fff;
            padding-top: 30px;
            min-height: 70px;
            border-bottom: #e8491d 3px solid;
        }
        header a {
            color: #ffffff;
            text-decoration: none;
            text-transform: uppercase;
            font-size: 16px;
        }
        header ul {
            padding: 0;
            margin: 0;
            list-style: none;
            overflow: hidden;
        }
        header li {
            float: left;
            display: inline;
            padding: 0 20px 0 20px;
        }
        header #branding {
            float: left;
        }
        header #branding h1 {
            margin: 0;
        }
        header nav {
            float: right;
            margin-top: 10px;
        }
        header .highlight, header .current a {
            color: #e8491d;
            font-weight: bold;
        }
        header a:hover {
            color: #ffffff;
            font-weight: bold;
        }
        .log-entry {
            background-color: #e7ffe7;
            padding: 10px;
            margin-bottom: 10px;
            border-left: 6px solid #2ecc71;
        }
        .error-entry {
            background-color: #ffebeb;
            padding: 10px;
            margin-bottom: 10px;
            border-left: 6px solid #e74c3c;
        }
    </style>
    "

  const Head: string := "<html><head><title>Log Output</title>" + Styles + "</head><body>"
  const Banner: string := "<header><div class='container'><h1>Log Output</h1></div></header>"
  const Open: string := "<div class='container'>"
  const Close: string := "</div></body></html>"

  /** Everything before the first block. */
  const Top: string := Head + Banner + Open

  /** The page for a reply. */
  function Page(r: Response): string {
    Top + LogPart(r) + ErrorPart(r) + Close
  }

  /** ... and that block is on the page. */
  lemma LineShown(r: Response, line: string)
    requires r.log.Some? && line in Split(r.log.value, '\n') && Strip(line) != []
    ensures Contains(Page(r), LogEntry(line))
  {
    LineInLog(r, line);
    ContainsWithin(Top, LogPart(r), ErrorPart(r), Close, LogEntry(line));
  }

  /** Whatever the reply, the page opens with the head, banner and container
      and closes the container, body and document. */
  lemma PageFrame(r: Response)
    ensures StartsWith(Page(r), Top)
    ensures EndsWith(Page(r), Close)
  {
    Framed(Top, LogPart(r), ErrorPart(r), Close);
  }

  /** `generate_html_log`: the lines and the error text are judged by
      `strip()`, which agrees with `Blank` by `StripEmptyIff`. */
  method GenerateHtmlLog(response: Response) returns (html: string)
    ensures html == Page(response)
  {
    html := Head;
    html := html + Banner;
    html := html + Open;
    if response.log.Some? {
      html := AppendBlocks(html, Split(response.log.value, '\n'));
    } else {
      AppendEmpty(Top);
    }
    assert html == Top + LogPart(response);
    if response.errors.Some? {
      StripEmptyIff(response.errors.value);
    }
    if response.errors.Some? && Strip(response.errors.value) != [] {
      html := html + ErrorEntry(response.errors.value);
    } else {
      AppendEmpty(Top + LogPart(response));
    }
    html := html + Close;
  }
}
