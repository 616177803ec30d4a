/** The media picker's string helpers: the URL a stored value is previewed
    at, the file-type classification of a value by its extension, and the
    value a selection from the media library stores. The page's origin is a
    parameter. */
module MediaPicker {
  import opened Prelude

  // ---------------------------------------------------------------------
  // getDisplayUrl

  const MediaDirectory: string := "storage/media"

  /** getDisplayUrl: an empty value shows nothing, an `http` value is used
      as it is, and any other value is placed under the origin. */
  function GetDisplayUrl(url: string, origin: string): (r: string)
    ensures url == "" ==> r == ""
    ensures StartsWith(url, "http") ==> r == url
    ensures url != "" && !StartsWith(url, "http") ==>
              exists path :: r == origin + path && StartsWith(path, "/") && EndsWith(path, url)
    ensures EndsWith(r, url)
  {
    if url == "" then ""
    else if StartsWith(url, "http") then
      assert url[|url| - |url|..] == url;
      url
    else if StartsWith(url, "/") then
      assert EndsWith(url, url);
      assert (origin + url)[|origin|..] == url;
      origin + url
    else if Contains(url, MediaDirectory) then
      assert EndsWith("/" + url, url);
      assert (origin + ("/" + url))[|origin| + 1..] == url;
      origin + ("/" + url)
    else
      assert EndsWith("/storage/media/" + url, url);
      assert (origin + ("/storage/media/" + url))[|origin| + 15..] == url;
      origin + ("/storage/media/" + url)
  }

  /** Which rule places a value under the origin: the first that matches. */
  lemma DisplayUrlRules(url: string, origin: string)
    requires url != "" && !StartsWith(url, "http")
    ensures StartsWith(url, "/") ==> GetDisplayUrl(url, origin) == origin + url
    ensures !StartsWith(url, "/") && Contains(url, MediaDirectory) ==>
              GetDisplayUrl(url, origin) == origin + "/" + url
    ensures !StartsWith(url, "/") && !Contains(url, MediaDirectory) ==>
              GetDisplayUrl(url, origin) == origin + "/storage/media/" + url
  {
  }

  /** A displayed URL is displayed as it is: on an `http` origin, applying
      getDisplayUrl twice is applying it once. */
  lemma DisplayUrlIdempotent(url: string, origin: string)
    requires StartsWith(origin, "http")
    ensures GetDisplayUrl(GetDisplayUrl(url, origin), origin) == GetDisplayUrl(url, origin)
  {
    var r := GetDisplayUrl(url, origin);
    if url != "" && !StartsWith(url, "http") {
      var path :| r == origin + path && StartsWith(path, "/") && EndsWith(path, url);
      assert r[..4] == origin[..4];
    }
  }

  // ---------------------------------------------------------------------
  // Extensions

  /** `url.split('.').pop()`: the text after the last `.`, or the whole
      value when it has none. */
  function Extension(url: string): (e: string)
    ensures EndsWith(url, e)
    ensures '.' !in e
    ensures |e| == |url| || url[|url| - |e| - 1] == '.'
  {
    if url == [] then []
    else if url[|url| - 1] == '.' then []
    else
      var e := Extension(url[..|url| - 1]);
      assert url[..|url| - 1][|url| - 1 - |e|..] == url[|url| - 1 - |e|..|url| - 1];
      e + [url[|url| - 1]]
  }

  /** The three properties of Extension fix it: whatever ends the value,
      holds no `.` and starts the value or follows a `.` is its extension. */
  lemma {:induction false} ExtensionUnique(url: string, e: string)
    requires EndsWith(url, e) && '.' !in e && (|e| == |url| || url[|url| - |e| - 1] == '.')
    ensures Extension(url) == e
  {
    if url != [] {
      assert |e| == 0 || e[|e| - 1] == url[|url| - 1];
      if url[|url| - 1] != '.' {
        var init := url[..|url| - 1];
        var e' := e[..|e| - 1];
        assert init[|init| - |e'|..] == e';
        assert forall k :: 0 <= k < |e'| ==> e'[k] == e[k];
        assert |e'| == |init| || init[|init| - |e'| - 1] == url[|url| - |e| - 1];
        ExtensionUnique(init, e');
        assert e == e' + [url[|url| - 1]];
      }
    }
  }

  /** A value's extension is decided by any end of it that holds a `.`. */
  lemma ExtensionOfSuffix(s: string, url: string)
    requires EndsWith(s, url) && '.' in url
    ensures Extension(s) == Extension(url)
  {
    var e := Extension(url);
    assert |e| == |url| ==> e == url;
    assert s[|s| - |e|..] == url[|url| - |e|..];
    assert s[|s| - |e| - 1] == url[|url| - |e| - 1];
    ExtensionUnique(s, e);
  }

  /** A lower-case extension is the extension of the lower-cased value. */
  lemma ExtensionLower(url: string)
    ensures Extension(Lower(url)) == Lower(Extension(url))
  {
    var x := Extension(url);
    var e := Lower(x);
    var lu := Lower(url);
    LowerSuffix(url, |x|);
    assert '.' !in e by {
      forall k | 0 <= k < |e| ensures e[k] != '.' {
        assert x[k] in x;
      }
    }
    assert |e| == |lu| || lu[|lu| - |e| - 1] == LowerChar(url[|url| - |x| - 1]);
    ExtensionUnique(lu, e);
  }

  /** Lower-casing commutes with taking the last n characters. */
  lemma LowerSuffix(s: string, n: nat)
    requires n <= |s|
    ensures Lower(s)[|s| - n..] == Lower(s[|s| - n..])
  {
  }

  /** A value that names its extension keeps it when it is placed under the
      origin. */
  lemma ExtensionOfDisplayUrl(url: string, origin: string)
    requires '.' in url
    ensures Extension(GetDisplayUrl(url, origin)) == Extension(url)
  {
    ExtensionOfSuffix(GetDisplayUrl(url, origin), url);
  }

  // ---------------------------------------------------------------------
  // isPdf and getFileIcon

  /** isPdf: a non-empty value whose extension, lower-cased, is `pdf`:
      the value ends in `pdf` in any case, either as the whole value or
      right after a `.`. */
  predicate IsPdf(url: string)
    ensures IsPdf(url) <==>
              |url| >= 3 && Lower(url[|url| - 3..]) == "pdf" && (|url| == 3 || url[|url| - 4] == '.')
  {
    PdfSuffix(url);
    url != "" && Lower(Extension(url)) == "pdf"
  }

  /** The extension of a value whose last '.' is n characters from its end
      (or that has no '.' in its last n = |url| characters) is those n
      characters. */
  lemma ExtensionIs(url: string, n: nat)
    requires n <= |url| && '.' !in url[|url| - n..]
    requires n == |url| || url[|url| - n - 1] == '.'
    ensures Extension(url) == url[|url| - n..]
  {
  }

  /** isPdf as a test on the last characters of the value. */
  lemma PdfSuffix(url: string)
    ensures (url != "" && Lower(Extension(url)) == "pdf") <==>
              |url| >= 3 && Lower(url[|url| - 3..]) == "pdf" && (|url| == 3 || url[|url| - 4] == '.')
  {
    if url != "" && Lower(Extension(url)) == "pdf" {
      assert url[|url| - 3..] == Extension(url);
    }
    if |url| >= 3 && Lower(url[|url| - 3..]) == "pdf" && (|url| == 3 || url[|url| - 4] == '.') {
      PdfLettersHaveNoDot(url[|url| - 3..]);
      ExtensionIs(url, 3);
    }
  }

  /** Three characters that lower-case to `pdf` hold no '.'. */
  lemma PdfLettersHaveNoDot(t: string)
    requires |t| == 3 && Lower(t) == "pdf"
    ensures '.' !in t
  {
    assert LowerChar(t[0]) == 'p' && LowerChar(t[1]) == 'd' && LowerChar(t[2]) == 'f';
    assert t == [t[0], t[1], t[2]];
  }

  /** The badge shown in place of a preview image. */
  datatype FileIcon = Pdf | Doc | Xls | Ppt | File

  const ImageExtensions: seq<string> := ["jpg", "jpeg", "png", "gif", "webp", "svg"]

  /** getFileIcon: no badge for an empty value or an image, else the badge
      of the first matching group of extensions. */
  function GetFileIcon(url: string): (icon: Option<FileIcon>)
    ensures url == "" ==> icon == None
    ensures url != "" && Lower(Extension(url)) in ImageExtensions ==> icon == None
    ensures url != "" && Lower(Extension(url)) !in ImageExtensions ==> icon.Some?
  {
    if url == "" then None
    else
      var extension := Lower(Extension(url));
      if extension in ImageExtensions then None
      else if extension == "pdf" then Some(Pdf)
      else if extension in ["doc", "docx"] then Some(Doc)
      else if extension in ["xls", "xlsx", "csv"] then Some(Xls)
      else if extension in ["ppt", "pptx"] then Some(Ppt)
      else Some(File)
  }

  /** The PDF badge is shown exactly for what isPdf calls a PDF. */
  lemma PdfIconIffPdf(url: string)
    ensures GetFileIcon(url) == Some(Pdf) <==> IsPdf(url)
  {
    if url != "" && Lower(Extension(url)) == "pdf" {
      assert Lower(Extension(url)) !in ImageExtensions;
    }
  }

  /** An upper-case `.PDF` or `.Docx` is classified like a lower-case one. */
  lemma FileIconIgnoresCase(url: string)
    ensures GetFileIcon(Lower(url)) == GetFileIcon(url)
    ensures IsPdf(Lower(url)) == IsPdf(url)
  {
    ExtensionLower(url);
    LowerIdempotent(Extension(url));
  }

  /** The spreadsheet badge covers `csv` as well. */
  lemma CsvIsSpreadsheet(name: string)
    ensures GetFileIcon(name + ".csv") == Some(Xls)
  {
    var url := name + ".csv";
    ExtensionUnique(url, "csv");
    assert Lower("csv") == "csv";
  }

  // ---------------------------------------------------------------------
  // handleSelect and handleClear

  /** The characters that end a URL's authority. */
  predicate EndsAuthority(c: char) {
    c == '/' || c == '?' || c == '#' || c == '\\'
  }

  predicate EndsPath(c: char) {
    c == '?' || c == '#'
  }

  /** The first index at or after i whose character satisfies stop, or |s|. */
  function FindFrom(s: string, i: nat, stop: char -> bool): (n: nat)
    requires i <= |s|
    ensures i <= n <= |s|
    ensures forall k :: i <= k < n ==> !stop(s[k])
    ensures n < |s| ==> stop(s[n])
    decreases |s| - i
  {
    if i == |s| || stop(s[i]) then i else FindFrom(s, i + 1, stop)
  }

  /** The end of the slashes after a scheme. */
  function SkipSlashes(s: string, i: nat): (n: nat)
    requires i <= |s|
    ensures i <= n <= |s|
    ensures forall k :: i <= k < n ==> s[k] == '/' || s[k] == '\\'
    ensures n < |s| ==> s[n] != '/' && s[n] != '\\'
    decreases |s| - i
  {
    if i < |s| && (s[i] == '/' || s[i] == '\\') then SkipSlashes(s, i + 1) else i
  }

  predicate SchemeChar(c: char) {
    ('a' <= c <= 'z') || ('A' <= c <= 'Z') || ('0' <= c <= '9') || c == '+' || c == '-' || c == '.'
  }

  /** The index of the `:` that ends a URL's scheme, or None when there is
      no `:` or the text before it is not a scheme. */
  function SchemeEnd(u: string): (r: Option<nat>)
    ensures r.Some? ==> 0 < r.value < |u| && u[r.value] == ':'
  {
    var colon := FindFrom(u, 0, c => c == ':');
    if colon == |u| || colon == 0 || exists k :: 0 <= k < colon && !SchemeChar(u[k]) then None
    else Some(colon)
  }

  predicate IsSpecial(scheme: string) {
    scheme == "http" || scheme == "https"
  }

  /** A backslash counts as a slash in the path of a special URL. */
  function Slashes(path: string): (r: string)
    ensures |r| == |path|
    ensures forall k :: 0 <= k < |path| ==> r[k] == (if path[k] == '\\' then '/' else path[k])
  {
    seq(|path|, k requires 0 <= k < |path| => if path[k] == '\\' then '/' else path[k])
  }

  /** The path of an `http` or `https` URL whose scheme ends at colon: the
      slashes, a host that must not be empty, then the path up to the query
      or fragment, `/` when empty. */
  function SpecialPath(u: string, colon: nat): (r: Option<string>)
    requires colon < |u|
    ensures r.Some? ==> StartsWith(r.value, "/")
  {
    var hostStart := SkipSlashes(u, colon + 1);
    var hostEnd := FindFrom(u, hostStart, EndsAuthority);
    if hostEnd == hostStart then None
    else
      var path := Slashes(u[hostEnd..FindFrom(u, hostEnd, EndsPath)]);
      Some(if path == "" then "/" else path)
  }

  /** `new URL(u).pathname`: None when the constructor throws. For `http`
      and `https` it is SpecialPath; any other scheme has the rest up to the
      query or fragment as its path. */
  function Pathname(u: string): (r: Option<string>)
    ensures SchemeEnd(u).None? ==> r.None?
    ensures SchemeEnd(u).Some? && IsSpecial(Lower(u[..SchemeEnd(u).value])) ==>
              r == SpecialPath(u, SchemeEnd(u).value)
  {
    match SchemeEnd(u)
    case None => None
    case Some(colon) =>
      if IsSpecial(Lower(u[..colon])) then SpecialPath(u, colon)
      else Some(u[colon + 1..FindFrom(u, colon + 1, EndsPath)])
  }

  /** handleSelect: the value onChange receives, or None when `new URL`
      throws and onChange is not called. A value not starting with `http` is
      passed on as it is; an `http` URL gives its path without its leading
      `/`. */
  function HandleSelect(selectedUrl: string): (r: Option<string>)
    ensures !StartsWith(selectedUrl, "http") ==> r == Some(selectedUrl)
    ensures StartsWith(selectedUrl, "http") ==>
              (Pathname(selectedUrl).None? <==> r.None?)
              && (r.Some? ==> r.value == StripSlash(Pathname(selectedUrl).value))
  {
    if StartsWith(selectedUrl, "http") then
      match Pathname(selectedUrl)
      case None => None
      case Some(path) => Some(if StartsWith(path, "/") then path[1..] else path)
    else Some(selectedUrl)
  }

  /** The path with one leading `/` removed. */
  function StripSlash(path: string): (r: string)
    ensures StartsWith(path, "/") ==> "/" + r == path
    ensures !StartsWith(path, "/") ==> r == path
  {
    if StartsWith(path, "/") then path[1..] else path
  }

  /** A host, with its port if any: not empty and with no character that
      ends an authority. */
  predicate IsHost(host: string) {
    host != "" && forall k :: 0 <= k < |host| ==> !EndsAuthority(host[k])
  }

  /** A path with no query, fragment or backslash. */
  predicate IsPlainPath(path: string) {
    forall k :: 0 <= k < |path| ==> !EndsPath(path[k]) && path[k] != '\\'
  }

  lemma SchemeOfOrigin(scheme: string, rest: string)
    requires IsSpecial(scheme)
    requires StartsWith(rest, ":")
    ensures SchemeEnd(scheme + rest) == Some(|scheme|)
    ensures (scheme + rest)[..|scheme|] == scheme
  {
    var u := scheme + rest;
    forall k | 0 <= k < |scheme| ensures u[k] == scheme[k] {
    }
    FindFromStops(u, 0, |scheme|, c => c == ':');
  }

  lemma SpecialPathOf(u: string, colon: nat, host: string, path: string)
    requires colon < |u| && IsHost(host) && IsPlainPath(path)
    requires u[colon + 1..] == "//" + host + "/" + path
    ensures SpecialPath(u, colon) == Some("/" + path)
  {
    var hostStart := colon + 3;
    var hostEnd := hostStart + |host|;
    forall k | hostStart <= k < hostEnd ensures u[k] == host[k - hostStart] {
      assert u[k] == u[colon + 1..][k - colon - 1];
    }
    forall k | hostEnd < k < |u| ensures u[k] == path[k - hostEnd - 1] {
      assert u[k] == u[colon + 1..][k - colon - 1];
    }
    assert u[colon + 1] == '/' && u[colon + 2] == '/' && u[hostEnd] == '/';
    SkipTwoSlashes(u, colon + 1);
    assert SkipSlashes(u, colon + 1) == hostStart;
    FindFromStops(u, hostStart, hostEnd, EndsAuthority);
    assert FindFrom(u, hostStart, EndsAuthority) == hostEnd;
    FindFromAbsent(u, hostEnd, EndsPath);
    assert FindFrom(u, hostEnd, EndsPath) == |u|;
    assert u[hostEnd..|u|] == "/" + path;
    SlashesPlain("/" + path);
  }

  lemma SlashesPlain(p: string)
    requires forall k :: 0 <= k < |p| ==> p[k] != '\\'
    ensures Slashes(p) == p
  {
  }

  lemma SkipTwoSlashes(u: string, i: nat)
    requires i + 2 < |u| && u[i] == '/' && u[i + 1] == '/' && u[i + 2] != '/' && u[i + 2] != '\\'
    ensures SkipSlashes(u, i) == i + 2
  {
  }

  /** A file picked from the media library, whose URL is the origin, `/` and
      the stored path, is stored as that path, and that path is shown at the
      URL it was picked from. */
  lemma SelectThenDisplay(scheme: string, host: string, path: string)
    requires IsSpecial(scheme) && IsHost(host) && IsPlainPath(path)
    requires Contains(path, MediaDirectory) && !StartsWith(path, "/") && !StartsWith(path, "http")
    ensures var origin := scheme + "://" + host;
            HandleSelect(origin + "/" + path) == Some(path)
            && GetDisplayUrl(path, origin) == origin + "/" + path
  {
    var origin := scheme + "://" + host;
    SelectOfOrigin(scheme, host, path);
    assert GetDisplayUrl(path, origin) == origin + ("/" + path);
  }

  /** The stored value of a URL on an `http` origin is its path without the
      leading `/`. */
  lemma SelectOfOrigin(scheme: string, host: string, path: string)
    requires IsSpecial(scheme) && IsHost(host) && IsPlainPath(path)
    ensures HandleSelect(scheme + "://" + host + "/" + path) == Some(path)
  {
    var u := scheme + "://" + host + "/" + path;
    PathnameOfOrigin(scheme, host, path);
    assert u[..4] == scheme[..4];
    assert ("/" + path)[1..] == path;
  }

  /** The path of a URL on an `http` origin. */
  lemma PathnameOfOrigin(scheme: string, host: string, path: string)
    requires IsSpecial(scheme) && IsHost(host) && IsPlainPath(path)
    ensures Pathname(scheme + "://" + host + "/" + path) == Some("/" + path)
  {
    var rest := "://" + host + "/" + path;
    var u := scheme + rest;
    assert u == scheme + "://" + host + "/" + path;
    SchemeOfOrigin(scheme, rest);
    LowerSpecial(scheme);
    assert u[|scheme| + 1..] == "//" + host + "/" + path;
    SpecialPathOf(u, |scheme|, host, path);
  }

  lemma LowerSpecial(scheme: string)
    requires IsSpecial(scheme)
    ensures Lower(scheme) == scheme
  {
  }

  lemma {:induction false} FindFromStops(s: string, i: nat, n: nat, stop: char -> bool)
    requires i <= n < |s| && stop(s[n])
    requires forall k :: i <= k < n ==> !stop(s[k])
    ensures FindFrom(s, i, stop) == n
    decreases n - i
  {
    if i < n {
      FindFromStops(s, i + 1, n, stop);
    }
  }

  lemma {:induction false} FindFromAbsent(s: string, i: nat, stop: char -> bool)
    requires i <= |s|
    requires forall k :: i <= k < |s| ==> !stop(s[k])
    ensures FindFrom(s, i, stop) == |s|
    decreases |s| - i
  {
    if i < |s| {
      FindFromAbsent(s, i + 1, stop);
    }
  }

  /** handleClear: the value onChange receives. */
  function HandleClear(): (value: string)
    ensures value == ""
  {
    ""
  }

  /** A cleared picker previews nothing: no URL, no badge, no PDF. */
  lemma ClearedShowsNothing(origin: string)
    ensures GetDisplayUrl(HandleClear(), origin) == ""
    ensures GetFileIcon(HandleClear()) == None
    ensures !IsPdf(HandleClear())
  {
  }
}
