/**
 * `extract_json_triple` (src-tauri/src/main.rs): pull the `{html, css, js}`
 * triple out of a model's free-form reply. The reply is cut from its first
 * `{` to its last `}` inclusive, that span is parsed as JSON, and the three
 * string members `html`, `css` and `js` are read, in that order.
 *
 * `serde_json::from_str` is not modelled: every operation takes the parser
 * as a parameter `parse`, and every lemma holds for all parsers.
 */
module JsonTriple {
  import opened Wrappers
  import opened Text
  import opened Json

  /** The generated site: markup, style sheet and script. */
  datatype Triple = Triple(html: string, css: string, js: string)

  /** One variant per failure site of the extraction, in source order. */
  datatype Error =
    | NoStart                      // no `{` in the reply
    | NoEnd                        // a `{` but no `}` in the reply
    | ParseFail(message: string)   // the span is not JSON; the parser's own message
    | MissingHtml                  // no string member `html`
    | MissingCss                   // no string member `css`
    | MissingJs                    // no string member `js`

  /**
   * What a call does: return a triple, return an error, or panic because the
   * last `}` lies more than one position before the first `{`, so that the
   * slice `s[start..=end]` has its bounds out of order.
   */
  datatype Outcome = Extracted(triple: Triple) | Failed(error: Error) | SliceOrderPanic

  /** The stand-in for `serde_json::from_str::<Value>`. */
  type Parser = string -> Result<JValue, string>

  /** The error text `anyhow` carries for each failure. */
  function Message(e: Error): string
  {
    match e
    case NoStart => "No JSON start"
    case NoEnd => "No JSON end"
    case ParseFail(m) => m
    case MissingHtml => "missing html"
    case MissingCss => "missing css"
    case MissingJs => "missing js"
  }

  /** Every `}` of `s` lies more than one position before every `{` of `s`. */
  ghost predicate Crossed(s: string)
  {
    forall i, j :: 0 <= i < |s| && 0 <= j < |s| && s[i] == '{' && s[j] == '}' ==> j + 1 < i
  }

  /** Where the brace search of lines 35-37 ends up; `Range(lo, hi)` is the slice `s[lo..hi]`. */
  datatype Span = NoOpen | NoClose | Inverted | Range(lo: nat, hi: nat)

  /** The first `{` and the last `}` of `s`, as the half-open range `s[start..end + 1]`. */
  function BraceSpan(s: string): (r: Span)
    ensures r.NoOpen? <==> '{' !in s
    ensures r.NoClose? <==> '{' in s && '}' !in s
    ensures r.Inverted? <==> '{' in s && '}' in s && Crossed(s)
    ensures r.Range? ==>
      && r.lo < |s| && 0 < r.hi && r.lo <= r.hi <= |s|
      && s[r.lo] == '{' && NoneBefore(s, '{', r.lo)
      && s[r.hi - 1] == '}' && NoneAfter(s, '}', r.hi - 1)
  {
    match Find(s, '{')
    case None => NoOpen
    case Some(start) =>
      match RFind(s, '}')
      case None => NoClose
      case Some(end) =>
        if end + 1 < start then Inverted else Range(start, end + 1)
  }

  /**
   * Lines 38-42 once the span is cut: a parse failure ends the call before
   * any member is read; otherwise the first of `html`, `css`, `js` that is
   * absent or not a string decides the error.
   */
  function CheckFields(parsed: Result<JValue, string>): (r: Outcome)
    ensures parsed.Err? <==> r.Failed? && r.error.ParseFail?
    ensures parsed.Err? ==> r == Failed(ParseFail(parsed.error))
    ensures r == Failed(MissingHtml) <==> parsed.Ok? && !HasStringMember(parsed.value, "html")
    ensures r == Failed(MissingCss) <==>
      parsed.Ok? && HasStringMember(parsed.value, "html") && !HasStringMember(parsed.value, "css")
    ensures r == Failed(MissingJs) <==>
      && parsed.Ok? && HasStringMember(parsed.value, "html") && HasStringMember(parsed.value, "css")
      && !HasStringMember(parsed.value, "js")
    ensures r.Extracted? <==>
      && parsed.Ok? && HasStringMember(parsed.value, "html") && HasStringMember(parsed.value, "css")
      && HasStringMember(parsed.value, "js")
    ensures r.Extracted? ==>
      && HasString(parsed.value, "html", r.triple.html)
      && HasString(parsed.value, "css", r.triple.css)
      && HasString(parsed.value, "js", r.triple.js)
    ensures !r.SliceOrderPanic?
  {
    match parsed
    case Err(m) => Failed(ParseFail(m))
    case Ok(v) =>
      match StringField(v, "html")
      case None => Failed(MissingHtml)
      case Some(html) =>
        match StringField(v, "css")
        case None => Failed(MissingCss)
        case Some(css) =>
          match StringField(v, "js")
          case None => Failed(MissingJs)
          case Some(js) => Extracted(Triple(html, css, js))
  }

  /**
   * `extract_json_triple(s)`, with `parse` in place of `serde_json::from_str`.
   * The start search runs first, so "No JSON start" is decided by `{` alone,
   * whatever `}` the reply holds; the parser is only consulted on a range.
   */
  function ExtractJsonTriple(s: string, parse: Parser): (r: Outcome)
    ensures r == Failed(NoStart) <==> '{' !in s
    ensures r == Failed(NoEnd) <==> '{' in s && '}' !in s
    ensures r == SliceOrderPanic <==> '{' in s && '}' in s && Crossed(s)
  {
    match BraceSpan(s)
    case NoOpen => Failed(NoStart)
    case NoClose => Failed(NoEnd)
    case Inverted => SliceOrderPanic
    case Range(lo, hi) => CheckFields(parse(s[lo..hi]))
  }

  /**
   * The result is decided by the brace span alone: a reply made of text without
   * `{`, then a span from `{` to `}`, then text without `}`, gives what the
   * span's parse gives.
   */
  lemma SpanDecides(pre: string, mid: string, post: string, parse: Parser)
    requires '{' !in pre && '}' !in post
    requires |mid| > 0 && mid[0] == '{' && mid[|mid| - 1] == '}'
    ensures ExtractJsonTriple(pre + mid + post, parse) == CheckFields(parse(mid))
  {
    var s := pre + mid + post;
    assert s[|pre|] == '{';
    assert s[|pre| + |mid| - 1] == '}';
    FindIsFirst(s, '{', |pre|);
    RFindIsLast(s, '}', |pre| + |mid| - 1);
    assert s[|pre|..|pre| + |mid|] == mid;
  }

  /**
   * When the last `}` sits just before the first `{` (as in `"}{"`) the slice
   * is empty, and the parser is handed the empty text.
   */
  lemma EmptySpan(pre: string, post: string, parse: Parser)
    requires '{' !in pre && '}' !in post
    ensures ExtractJsonTriple(pre + "}{" + post, parse) == CheckFields(parse(""))
  {
    var s := pre + "}{" + post;
    assert s[|pre|] == '}' && s[|pre| + 1] == '{';
    FindIsFirst(s, '{', |pre| + 1);
    RFindIsLast(s, '}', |pre|);
  }

  /** The first `{` of `p + s + q` is the first `{` of `s`, shifted by `|p|`. */
  lemma FindShifted(p: string, s: string, q: string)
    requires '{' !in p && '{' in s
    ensures Find(p + s + q, '{') == Some(|p| + Find(s, '{').value)
  {
    var t := p + s + q;
    var i := Find(s, '{').value;
    forall j | 0 <= j < |p| + i ensures t[j] != '{' {
      if j < |p| { assert t[j] == p[j]; } else { assert t[j] == s[j - |p|]; }
    }
    assert t[|p| + i] == s[i];
    FindIsFirst(t, '{', |p| + i);
  }

  /** The last `}` of `p + s + q` is the last `}` of `s`, shifted by `|p|`. */
  lemma RFindShifted(p: string, s: string, q: string)
    requires '}' !in q && '}' in s
    ensures RFind(p + s + q, '}') == Some(|p| + RFind(s, '}').value)
  {
    var i := RFind(s, '}').value;
    LastInMiddle(p + s + q, |p|, s, i);
  }

  /** Helper for `RFindShifted`, stated over the positions of `s` inside `t`. */
  lemma LastInMiddle(t: string, n: nat, s: string, i: nat)
    requires n + |s| <= |t| && t[n..n + |s|] == s && '}' !in t[n + |s|..]
    requires i < |s| && s[i] == '}' && NoneAfter(s, '}', i)
    ensures RFind(t, '}') == Some(n + i)
  {
    forall j | n + i < j < |t| ensures t[j] != '}' {
      if j < n + |s| {
        assert t[j] == s[j - n];
      } else {
        assert t[j] == t[n + |s|..][j - n - |s|];
      }
    }
    RFindIsLast(t, '}', n + i);
  }

  /**
   * Text without `{` in front and text without `}` behind do not change the
   * outcome for a reply that has both braces.
   */
  lemma SurroundingTextIgnored(p: string, s: string, q: string, parse: Parser)
    requires '{' !in p && '}' !in q
    requires '{' in s && '}' in s
    ensures ExtractJsonTriple(p + s + q, parse) == ExtractJsonTriple(s, parse)
  {
    BraceSpanShifted(p, s, q);
    if BraceSpan(s).Range? {
      MiddleSlice(p, s, q, BraceSpan(s).lo, BraceSpan(s).hi);
      SameSliceSameOutcome(p + s + q, s, parse);
    }
  }

  /** Two replies whose brace spans hold the same text have the same outcome. */
  lemma SameSliceSameOutcome(a: string, b: string, parse: Parser)
    requires BraceSpan(a).Range? && BraceSpan(b).Range?
    requires a[BraceSpan(a).lo..BraceSpan(a).hi] == b[BraceSpan(b).lo..BraceSpan(b).hi]
    ensures ExtractJsonTriple(a, parse) == ExtractJsonTriple(b, parse)
  {
  }

  /**
   * Without both braces in `s` the surrounding text can matter: `"{"` has no
   * closing brace, while `"}" + "{"` hands the empty text to the parser.
   */
  lemma SurroundingTextCanMatter(parse: Parser)
    ensures ExtractJsonTriple("{", parse) == Failed(NoEnd)
    ensures ExtractJsonTriple("}" + "{", parse) == CheckFields(parse(""))
    ensures ExtractJsonTriple("}" + "{", parse) != ExtractJsonTriple("{", parse)
  {
    EmptySpan("", "", parse);
    assert "" + "}{" + "" == "}" + "{";
  }

  /** Surrounding text with no braces at all leaves every outcome unchanged. */
  lemma BracelessTextIgnored(p: string, s: string, q: string, parse: Parser)
    requires '{' !in p && '}' !in p && '{' !in q && '}' !in q
    ensures ExtractJsonTriple(p + s + q, parse) == ExtractJsonTriple(s, parse)
  {
    if '{' in s && '}' in s {
      SurroundingTextIgnored(p, s, q, parse);
    } else {
      assert '{' in p + s + q <==> '{' in s;
      assert '}' in p + s + q <==> '}' in s;
    }
  }

  /** Surrounding text moves the brace span of `s` by `|p|` and changes nothing else. */
  lemma BraceSpanShifted(p: string, s: string, q: string)
    requires '{' !in p && '}' !in q
    requires '{' in s && '}' in s
    ensures BraceSpan(s).Inverted? || BraceSpan(s).Range?
    ensures BraceSpan(s).Inverted? ==> BraceSpan(p + s + q).Inverted?
    ensures BraceSpan(s).Range? ==>
      BraceSpan(p + s + q) == Range(|p| + BraceSpan(s).lo, |p| + BraceSpan(s).hi)
  {
    FindShifted(p, s, q);
    RFindShifted(p, s, q);
  }

  /** A slice of the middle part of `p + s + q` is the same slice of `s`, shifted by `|p|`. */
  lemma MiddleSlice(p: string, s: string, q: string, lo: nat, hi: nat)
    requires lo <= hi <= |s|
    ensures (p + s + q)[|p| + lo..|p| + hi] == s[lo..hi]
  {
    assert (p + s + q)[|p|..|p| + |s|] == s;
  }

  /**
   * On success the triple holds exactly the strings stored under `html`,
   * `css` and `js` in the parse of the brace span.
   */
  lemma SuccessReadsSpan(s: string, parse: Parser)
    requires ExtractJsonTriple(s, parse).Extracted?
    ensures BraceSpan(s).Range?
    ensures
      var t := ExtractJsonTriple(s, parse).triple;
      var parsed := parse(s[BraceSpan(s).lo..BraceSpan(s).hi]);
      && parsed.Ok?
      && HasString(parsed.value, "html", t.html)
      && HasString(parsed.value, "css", t.css)
      && HasString(parsed.value, "js", t.js)
  {
  }

  /** A parsed value that is not an object fails on the first member looked up. */
  lemma NonObjectMissesHtml(v: JValue)
    requires !v.JObject?
    ensures CheckFields(Ok(v)) == Failed(MissingHtml)
  {
  }

  /** A reply with only a closing brace fails on the start search. */
  lemma ClosingBraceOnly(parse: Parser)
    ensures ExtractJsonTriple("done }", parse) == Failed(NoStart)
    ensures Message(ExtractJsonTriple("done }", parse).error) == "No JSON start"
  {
  }

  /** `"}x{"`: the last `}` is two positions before the first `{`, so the slice panics. */
  lemma GapPanics(parse: Parser)
    ensures ExtractJsonTriple("}x{", parse) == SliceOrderPanic
  {
  }

  /** `"}{"`: the slice is empty, and a parser that rejects empty text gives a parse error. */
  lemma AdjacentBracesParseEmpty(parse: Parser)
    requires parse("").Err?
    ensures ExtractJsonTriple("}{", parse) == Failed(ParseFail(parse("").error))
  {
    EmptySpan("", "", parse);
  }
}
