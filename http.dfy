/**
 * The request headers and the response checks of `Zoomaker._download_file`:
 * what decides, before anything is written, whether a response is saved and
 * under which file name.
 */
module Http {
  import opened Wrappers
  import opened Text
  import Slug

  const UserAgent: string :=
    "Mozilla/5.0 (Windows NT 10.0; Win64; x64) AppleWebKit/537.36 (KHTML, like Gecko) Chrome/91.0.4472.134 Safari/538.36"

  /** The headers sent with the GET: the browser `User-Agent`, and a bearer token when one is given. */
  function RequestHeaders(token: Option<string>): map<string, string>
  {
    var h := map["User-Agent" := UserAgent];
    if Truthy(token) then h["Authorization" := "Bearer " + token.value] else h
  }

  /** How the body stream ends: completely, or broken after the file was opened. */
  datatype Body = Complete | Interrupted

  /**
   * A response as `requests` hands it over: the final status after
   * redirects, the headers with their names in lower case, and how the body
   * stream ends. The header dictionary of `requests` is case-insensitive, so
   * a lookup is modelled as a lookup of the lower-cased name.
   */
  datatype Response = Response(status: int, headers: map<string, string>, body: Body)

  /** `requests.get` either raises a `RequestException` or returns a response. */
  datatype Reply = ConnectionFailed | Replied(response: Response)

  /** `response.headers.get(name)`, for a `name` written in lower case. */
  function Header(r: Response, name: string): Option<string>
  {
    if name in r.headers then Some(r.headers[name]) else None
  }

  /** The `Content-Type` value, empty when the header is absent. */
  function ContentType(r: Response): string
  {
    match Header(r, "content-type") case Some(v) => v case None => ""
  }

  /** `raise_for_status` raises for the client and server error ranges only. */
  predicate RaisesForStatus(status: int)
  {
    400 <= status < 600
  }

  /**
   * The HTML test on the lower-cased `Content-Type`. Lowering the ASCII
   * letters only is exact here: no other character that can occur in a
   * header value lowers to a character of either needle.
   */
  predicate IsHtml(contentType: string)
  {
    var ct := Lower(contentType);
    Contains(ct, "text/html") || Contains(ct, "application/xhtml+xml")
  }

  /** The regular expression `filename=(.+)` matches at position `i` (`.` excludes a newline). */
  predicate MatchAt(cd: string, i: int)
  {
    0 <= i && i + 10 <= |cd| && cd[i..i + 9] == "filename=" && cd[i + 9] != '\n'
  }

  /** The leftmost match at or after `from`, as `re.findall(...)[0]` takes it. */
  function FirstMatchFrom(cd: string, from: nat): (k: Option<nat>)
    ensures k.Some? ==> from <= k.value && k.value + 10 <= |cd|
    decreases |cd| - from
  {
    if from + 10 > |cd| then None
    else if MatchAt(cd, from) then Some(from)
    else FirstMatchFrom(cd, from + 1)
  }

  /** `FirstMatchFrom` finds the leftmost match at or after `from`, and `None` when there is none. */
  lemma {:induction false} FirstMatchFromSpec(cd: string, from: nat)
    ensures var k := FirstMatchFrom(cd, from);
      && (k.Some? ==> from <= k.value && MatchAt(cd, k.value) && forall j :: from <= j < k.value ==> !MatchAt(cd, j))
      && (k.None? ==> forall j :: from <= j ==> !MatchAt(cd, j))
    decreases |cd| - from
  {
    if from + 10 <= |cd| && !MatchAt(cd, from) {
      FirstMatchFromSpec(cd, from + 1);
    }
  }

  /** What the greedy `.+` takes: everything up to the first newline. */
  function LineRun(s: string): string
  {
    if s == [] || s[0] == '\n' then [] else [s[0]] + LineRun(s[1..])
  }

  /** `LineRun` is the longest prefix without a newline. */
  lemma {:induction false} LineRunSpec(s: string)
    ensures var r := LineRun(s);
      '\n' !in r && IsPrefix(r, s) && (|r| < |s| ==> s[|r|] == '\n')
  {
    if s != [] && s[0] != '\n' {
      LineRunSpec(s[1..]);
      var rest := LineRun(s[1..]);
      assert s[..|rest| + 1] == [s[0]] + s[1..][..|rest|];
    }
  }

  function StripLeadingQuotes(s: string): string
  {
    if s != [] && s[0] == '"' then StripLeadingQuotes(s[1..]) else s
  }

  /** `StripLeadingQuotes` drops the leading run of `"` and nothing else. */
  lemma {:induction false} StripLeadingQuotesSpec(s: string)
    ensures var r := StripLeadingQuotes(s);
      && |r| <= |s| && r == s[|s| - |r|..]
      && (forall i :: 0 <= i < |s| - |r| ==> s[i] == '"')
      && (r != [] ==> r[0] != '"')
  {
    if s != [] && s[0] == '"' {
      StripLeadingQuotesSpec(s[1..]);
      var r := StripLeadingQuotes(s[1..]);
      assert s[1..][|s| - 1 - |r|..] == s[|s| - |r|..];
      forall i | 0 <= i < |s| - |r| ensures s[i] == '"' {
        if i > 0 {
          assert s[i] == s[1..][i - 1];
        }
      }
    }
  }

  function StripTrailingQuotes(s: string): string
  {
    if s != [] && s[|s| - 1] == '"' then StripTrailingQuotes(s[..|s| - 1]) else s
  }

  /** `StripTrailingQuotes` drops the trailing run of `"` and nothing else. */
  lemma {:induction false} StripTrailingQuotesSpec(s: string)
    ensures var r := StripTrailingQuotes(s);
      && |r| <= |s| && r == s[..|r|]
      && (forall i :: |r| <= i < |s| ==> s[i] == '"')
      && (r != [] ==> r[|r| - 1] != '"')
  {
    if s != [] && s[|s| - 1] == '"' {
      var init := s[..|s| - 1];
      StripTrailingQuotesSpec(init);
      var r := StripTrailingQuotes(init);
      assert init[..|r|] == s[..|r|];
      forall i | |r| <= i < |s| ensures s[i] == '"' {
        if i < |s| - 1 {
          assert s[i] == init[i];
        }
      }
    }
  }

  /** `s.strip('"')` */
  function StripQuotes(s: string): string
  {
    StripTrailingQuotes(StripLeadingQuotes(s))
  }

  /**
   * `re.findall("filename=(.+)", cd)[0].strip('"')`, with `None` for the
   * `IndexError` raised when nothing matches.
   */
  function DispositionFilename(cd: string): Option<string>
  {
    match FirstMatchFrom(cd, 0)
    case None => None
    case Some(k) => Some(StripQuotes(LineRun(cd[k + 9..])))
  }

  /** Stripping the quotes keeps a line a line and leaves no quote at either end. */
  lemma StripQuotesShape(s: string)
    ensures var f := StripQuotes(s);
      ('\n' !in s ==> '\n' !in f) && (f != [] ==> f[0] != '"' && f[|f| - 1] != '"')
  {
    var lead := StripLeadingQuotes(s);
    var f := StripTrailingQuotes(lead);
    StripLeadingQuotesSpec(s);
    StripTrailingQuotesSpec(lead);
    assert f == lead[..|f|];
    assert lead == s[|s| - |lead|..];
    if f != [] {
      assert f[0] == lead[0];
    }
  }

  /**
   * A file name is found iff `filename=` occurs followed by a character
   * other than a newline; it is then the rest of that line after the leftmost
   * such occurrence, with the double quotes at both of its ends removed.
   */
  lemma DispositionFilenameSpec(cd: string)
    ensures DispositionFilename(cd).None? <==> forall i :: !MatchAt(cd, i)
    ensures DispositionFilename(cd).Some? ==>
      exists k :: MatchAt(cd, k) && (forall j :: 0 <= j < k ==> !MatchAt(cd, j)) &&
        DispositionFilename(cd).value == StripQuotes(LineRun(cd[k + 9..]))
    ensures DispositionFilename(cd).Some? ==>
      var f := DispositionFilename(cd).value;
      '\n' !in f && (f != [] ==> f[0] != '"' && f[|f| - 1] != '"')
  {
    FirstMatchFromSpec(cd, 0);
    match FirstMatchFrom(cd, 0)
    case None =>
    case Some(k) =>
      LineRunSpec(cd[k + 9..]);
      StripQuotesShape(LineRun(cd[k + 9..]));
  }

  /** Python's `int()` whitespace among the characters of a header value. */
  predicate IsIntSpace(c: char)
  {
    Slug.IsSpace(c) || c as int == 0x85 || c as int == 0xA0
  }

  function TrimSpace(s: string): (r: string)
    ensures |r| <= |s|
    decreases |s|
  {
    if s != [] && IsIntSpace(s[0]) then TrimSpace(s[1..])
    else if s != [] && IsIntSpace(s[|s| - 1]) then TrimSpace(s[..|s| - 1])
    else s
  }

  predicate IsDigit(c: char)
  {
    '0' <= c <= '9'
  }

  /** Decimal digits with single underscores allowed between two digits. */
  predicate IsDigits(s: string)
    decreases |s|
  {
    s != [] && IsDigit(s[0]) &&
    (|s| == 1 || IsDigits(s[1..]) || (s[1] == '_' && IsDigits(s[2..])))
  }

  /** `int(s)` succeeds on the string `s`. */
  predicate IsIntLiteral(s: string)
  {
    var t := TrimSpace(s);
    t != [] && if t[0] == '+' || t[0] == '-' then IsDigits(t[1..]) else IsDigits(t)
  }

  /** Why `_download_file` gives up (it returns `None` in every case). */
  datatype Failure =
    | RequestFailed        // `requests.get` raised
    | ErrorStatus(status: int) // `raise_for_status` raised
    | HtmlPage             // an HTML landing page instead of the file
    | NoFilename           // `Content-Disposition` without `filename=`: `IndexError`
    | BadLength            // `int(content-length)` raised `ValueError`
    | OpenFailed           // `open(file_path, 'wb')` raised
    | StreamBroken         // the body stream broke after the file was opened

  /**
   * The checks of `_download_file` between the GET and the `open`, in its
   * order: the file name to save under, or the failure.
   */
  function Classify(r: Response, name: string): Result<string, Failure>
  {
    if RaisesForStatus(r.status) then Err(ErrorStatus(r.status))
    else if IsHtml(ContentType(r)) then Err(HtmlPage)
    else
      var cd := Header(r, "content-disposition");
      var filename := if Truthy(cd) then DispositionFilename(cd.value) else Some(Slug.Slugify(name));
      if filename.None? then Err(NoFilename)
      else if Header(r, "content-length").Some? && !IsIntLiteral(Header(r, "content-length").value) then Err(BadLength)
      else Ok(filename.value)
  }

  /** A successful reply whose `Content-Disposition` is `filename=/x` is saved under the name `/x`. */
  lemma ClassifyAbsoluteName(name: string)
    ensures Classify(Response(200, map["content-disposition" := "filename=/x"], Complete), name) == Ok("/x")
  {
    var cd := "filename=/x";
    assert MatchAt(cd, 0);
    assert FirstMatchFrom(cd, 0) == Some(0);
    assert cd[9..] == "/x";
    assert LineRun("/x") == "/x" by {
      assert "/x"[1..] == "x" && "x"[1..] == "";
    }
    assert StripQuotes("/x") == "/x" by {
      assert "/x"[1..] == "x" && "x"[1..] == "";
    }
    assert DispositionFilename(cd) == Some("/x");
  }

  /** A line with no newline is taken whole by `.+`. */
  lemma {:induction false} LineRunWhole(s: string)
    requires '\n' !in s
    ensures LineRun(s) == s
  {
    if s != [] {
      LineRunWhole(s[1..]);
      assert s == [s[0]] + s[1..];
    }
  }

  /** `Content-Disposition: filename=model.bin` names `model.bin`. */
  lemma DispositionModelBin()
    ensures DispositionFilename("filename=model.bin") == Some("model.bin")
  {
    var cd := "filename=model.bin";
    assert MatchAt(cd, 0);
    assert FirstMatchFrom(cd, 0) == Some(0);
    assert cd[9..] == "model.bin";
    LineRunWhole("model.bin");
    assert StripQuotes("model.bin") == "model.bin";
  }

  /** A 200 reply naming `model.bin` in `Content-Disposition` is saved as `model.bin`. */
  lemma ClassifyModelBin(name: string)
    ensures Classify(Response(200, map["content-disposition" := "filename=model.bin"], Complete), name) == Ok("model.bin")
  {
    DispositionModelBin();
  }

  /**
   * The checks run in this order and the first that fails decides: an
   * error status, an HTML page, a `Content-Disposition` without `filename=`,
   * a `content-length` that `int` rejects. A response that passes all four
   * is accepted. A saved name comes from `Content-Disposition` when that
   * header is non-empty, and is otherwise the slug of `name`.
   */
  lemma ClassifySpec(r: Response, name: string)
    ensures RaisesForStatus(r.status) ==> Classify(r, name) == Err(ErrorStatus(r.status))
    ensures !RaisesForStatus(r.status) && IsHtml(ContentType(r)) ==> Classify(r, name) == Err(HtmlPage)
    ensures var cd := Header(r, "content-disposition");
      !RaisesForStatus(r.status) && !IsHtml(ContentType(r)) && Truthy(cd) && (forall i :: !MatchAt(cd.value, i)) ==>
        Classify(r, name) == Err(NoFilename)
    ensures var cd := Header(r, "content-disposition");
      var len := Header(r, "content-length");
      !RaisesForStatus(r.status) && !IsHtml(ContentType(r)) && (Truthy(cd) ==> DispositionFilename(cd.value).Some?) &&
      len.Some? && !IsIntLiteral(len.value) ==>
        Classify(r, name) == Err(BadLength)
    ensures var cd := Header(r, "content-disposition");
      var len := Header(r, "content-length");
      !RaisesForStatus(r.status) && !IsHtml(ContentType(r)) && (Truthy(cd) ==> DispositionFilename(cd.value).Some?) &&
      (len.Some? ==> IsIntLiteral(len.value)) ==>
        Classify(r, name).Ok?
    ensures var cd := Header(r, "content-disposition");
      Classify(r, name).Ok? ==>
        && !RaisesForStatus(r.status) && !IsHtml(ContentType(r))
        && (Truthy(cd) ==> DispositionFilename(cd.value) == Some(Classify(r, name).value))
        && (!Truthy(cd) ==> Classify(r, name).value == Slug.Slugify(name) && Slug.IsSlug(Classify(r, name).value))
  {
    var cd := Header(r, "content-disposition");
    if !RaisesForStatus(r.status) && !IsHtml(ContentType(r)) {
      if Truthy(cd) {
        DispositionFilenameSpec(cd.value);
        assert Classify(r, name).Ok? ==> Classify(r, name).value == DispositionFilename(cd.value).value;
      } else {
        Slug.SlugifyShape(name);
        assert Classify(r, name).Ok? ==> Classify(r, name).value == Slug.Slugify(name);
      }
    }
  }
}
