/**
 * The naming rules of the upload and download handlers: the filename stem
 * sanitiser, extension extraction as the POSIX `path.extname` /
 * `path.basename` do it, the regex-based extension stripping of the
 * download handlers, output file names, URLs, zip entry names, and the
 * MIME allow-list of the upload filter.
 */
module Naming {
  import opened Wrappers

  // ---------------------------------------------------------------------
  // The sanitiser: `s.replace(/[^a-z0-9]/gi, '_').toLowerCase()`

  predicate IsAsciiAlnum(c: char) {
    ('a' <= c <= 'z') || ('A' <= c <= 'Z') || ('0' <= c <= '9')
  }

  /** The characters a sanitised stem is made of: `[a-z0-9_]`. */
  predicate IsStemChar(c: char) {
    ('a' <= c <= 'z') || ('0' <= c <= '9') || c == '_'
  }

  /** `s.replace(/[^a-z0-9]/gi, '_')`: the case-insensitive class keeps ASCII letters of both cases. */
  function ReplaceNonAlnum(s: string): (r: string)
    ensures |r| == |s|
    ensures forall i :: 0 <= i < |s| ==> r[i] == (if IsAsciiAlnum(s[i]) then s[i] else '_')
  {
    if s == [] then [] else [if IsAsciiAlnum(s[0]) then s[0] else '_'] + ReplaceNonAlnum(s[1..])
  }

  function LowerChar(c: char): char {
    if 'A' <= c <= 'Z' then (c as int - 'A' as int + 'a' as int) as char else c
  }

  /**
   * `toLowerCase` on the strings it is applied to here, which are ASCII
   * after the replacement: upper-case ASCII letters become lower-case.
   */
  function LowerCase(s: string): (r: string)
    ensures |r| == |s|
    ensures forall i :: 0 <= i < |s| ==> r[i] == LowerChar(s[i])
  {
    if s == [] then [] else [LowerChar(s[0])] + LowerCase(s[1..])
  }

  function Sanitize(s: string): string {
    LowerCase(ReplaceNonAlnum(s))
  }

  /**
   * The sanitised stem has the input's length; each position holds the
   * lower-cased input character if that is an ASCII letter or digit and
   * `_` otherwise; so every character is in `[a-z0-9_]`.
   */
  lemma SanitizeSpec(s: string)
    ensures |Sanitize(s)| == |s|
    ensures forall i :: 0 <= i < |s| ==>
      Sanitize(s)[i] == (if IsAsciiAlnum(s[i]) then LowerChar(s[i]) else '_')
    ensures forall i :: 0 <= i < |s| ==> IsStemChar(Sanitize(s)[i])
    ensures '/' !in Sanitize(s) && '.' !in Sanitize(s)
  {
    var r := Sanitize(s);
    forall i | 0 <= i < |s| ensures IsStemChar(r[i]) {
      assert r[i] == LowerChar(ReplaceNonAlnum(s)[i]);
    }
    forall i | 0 <= i < |r| ensures r[i] != '/' && r[i] != '.' {
      assert IsStemChar(r[i]);
    }
  }

  /** A string is left unchanged by the sanitiser exactly when it already is a stem. */
  lemma SanitizeFixedPoints(s: string)
    ensures Sanitize(s) == s <==> forall i :: 0 <= i < |s| ==> IsStemChar(s[i])
  {
    SanitizeSpec(s);
    if forall i :: 0 <= i < |s| ==> IsStemChar(s[i]) {
      forall i | 0 <= i < |s| ensures Sanitize(s)[i] == s[i] {
        assert IsStemChar(s[i]);
      }
    }
  }

  /** Sanitising twice is sanitising once. */
  lemma SanitizeIdempotent(s: string)
    ensures Sanitize(Sanitize(s)) == Sanitize(s)
  {
    SanitizeSpec(s);
    SanitizeFixedPoints(Sanitize(s));
  }

  // ---------------------------------------------------------------------
  // Searching from the end

  /** The index of the last `c` in `s`, or -1 (`lastIndexOf`). */
  function LastIndexOf(s: string, c: char): (r: int)
    ensures -1 <= r < |s|
    ensures r >= 0 ==> s[r] == c
    ensures forall k :: r < k < |s| ==> s[k] != c
  {
    if s == [] then -1
    else if s[|s| - 1] == c then |s| - 1
    else LastIndexOf(s[..|s| - 1], c)
  }

  /** `s` with its trailing `/` characters removed. */
  function TrimTrailingSlashes(s: string): (r: string)
    ensures |r| <= |s| && r == s[..|r|]
    ensures r == [] || r[|r| - 1] != '/'
    ensures forall k :: |r| <= k < |s| ==> s[k] == '/'
  {
    if s != [] && s[|s| - 1] == '/' then TrimTrailingSlashes(s[..|s| - 1]) else s
  }

  lemma NoSlashTrim(s: string)
    requires '/' !in s
    ensures TrimTrailingSlashes(s) == s
  {
  }

  /** The characters after the last `/`: `url.split('/').pop()`. */
  function LastSegment(s: string): (r: string)
    ensures '/' !in r
    ensures |r| <= |s| && r == s[|s| - |r|..]
    ensures |r| < |s| ==> s[|s| - |r| - 1] == '/'
  {
    s[LastIndexOf(s, '/') + 1..]
  }

  // ---------------------------------------------------------------------
  // `path.extname` and `path.basename(p, path.extname(p))` (POSIX)

  /** The last path component, trailing slashes ignored: `path.basename(p)`. */
  function LastPart(p: string): (r: string)
    ensures '/' !in r
  {
    LastSegment(TrimTrailingSlashes(p))
  }

  /**
   * The extension of one path component: from its last `.` to its end,
   * except that a component with no `.`, whose last `.` is its first
   * character (`.png`), or that is `..`, has none.
   */
  function ExtOfPart(part: string): string {
    var j := LastIndexOf(part, '.');
    if j <= 0 || part == ".." then "" else part[j..]
  }

  /** `path.extname(p)`: the extension of the last component. */
  function ExtName(p: string): string {
    ExtOfPart(LastPart(p))
  }

  /**
   * An extension is empty or a `.` followed by characters that are neither
   * `.` nor `/`, and it is a proper suffix of the component.
   */
  predicate ExtensionOf(part: string, e: string) {
    && |e| <= |part|
    && part[|part| - |e|..] == e
    && (e != "" ==> |e| < |part| && e[0] == '.')
    && (forall k :: 1 <= k < |e| ==> e[k] != '.' && e[k] != '/')
  }

  lemma ExtOfPartShape(part: string)
    requires '/' !in part
    ensures ExtensionOf(part, ExtOfPart(part))
  {
    var j := LastIndexOf(part, '.');
    var e := ExtOfPart(part);
    if e != "" {
      assert e == part[j..] && 0 < j;
      forall k | 1 <= k < |e| ensures e[k] != '.' && e[k] != '/' {
        assert e[k] == part[j + k];
        assert part[j + k] in part;
      }
    }
  }

  lemma ExtNameShape(p: string)
    ensures ExtensionOf(LastPart(p), ExtName(p))
  {
    ExtOfPartShape(LastPart(p));
  }

  /** `path.basename(p, path.extname(p))`: the last component without its extension. */
  function UploadBase(p: string): string {
    var part := LastPart(p);
    ExtNameShape(p);
    part[..|part| - |ExtName(p)|]
  }

  /** The stem the upload handler names output files after. */
  function UploadStem(originalName: string): string {
    Sanitize(UploadBase(originalName))
  }

  /** The index of the first `c` in `s`, or `|s|` (`indexOf`, with "not found" as `|s|`). */
  function IndexOf(s: string, c: char): (r: nat)
    ensures r <= |s|
    ensures r < |s| ==> s[r] == c
    ensures forall k :: 0 <= k < r ==> s[k] != c
  {
    if s == [] then 0 else if s[0] == c then 0 else 1 + IndexOf(s[1..], c)
  }

  /** `s.replace(c, '')` with a one-character string pattern: drops the first `c` only. */
  function RemoveFirst(s: string, c: char): string {
    var i := IndexOf(s, c);
    if i == |s| then s else s[..i] + s[i + 1..]
  }

  /** `originalFormat`: `path.extname(originalName).replace('.', '')`. */
  function OriginalFormat(originalName: string): string {
    RemoveFirst(ExtName(originalName), '.')
  }

  /** Dropping the first `.` of an extension drops its leading `.`. */
  lemma RemoveLeadingDot(e: string)
    requires e != "" ==> e[0] == '.'
    requires forall k :: 1 <= k < |e| ==> e[k] != '.' && e[k] != '/'
    ensures RemoveFirst(e, '.') == if e == "" then "" else e[1..]
    ensures forall k :: 0 <= k < |RemoveFirst(e, '.')| ==>
      RemoveFirst(e, '.')[k] != '.' && RemoveFirst(e, '.')[k] != '/'
  {
    if e != "" {
      assert IndexOf(e, '.') == 0;
      var f := RemoveFirst(e, '.');
      forall k | 0 <= k < |f| ensures f[k] != '.' && f[k] != '/' {
        assert f[k] == e[k + 1];
      }
    }
  }

  /** The format is the extension without its leading `.`, and holds no `.` or `/`. */
  lemma OriginalFormatSpec(originalName: string)
    ensures var e := ExtName(originalName);
      OriginalFormat(originalName) == if e == "" then "" else e[1..]
    ensures forall k :: 0 <= k < |OriginalFormat(originalName)| ==>
      OriginalFormat(originalName)[k] != '.' && OriginalFormat(originalName)[k] != '/'
  {
    ExtNameShape(originalName);
    RemoveLeadingDot(ExtName(originalName));
  }

  // ---------------------------------------------------------------------
  // `originalName.replace(/\.[^/.]+$/, "")` in the download handlers

  /** The regex `\.[^/.]+$` matches at `i`. */
  ghost predicate ExtensionMatchAt(s: string, i: int) {
    0 <= i < |s| - 1 && s[i] == '.' && forall k :: i < k < |s| ==> s[k] != '/' && s[k] != '.'
  }

  /**
   * Remove the first match of `/\.[^/.]+$/`. Only the last `.` can start a
   * match, so that is where the search looks.
   */
  function StripExtension(s: string): string {
    var j := LastIndexOf(s, '.');
    if 0 <= j < |s| - 1 && '/' !in s[j + 1..] then s[..j] else s
  }

  /**
   * The stripped name is the name cut at the position where the regex
   * matches, or the whole name when it matches nowhere.
   */
  lemma StripExtensionSpec(s: string)
    ensures forall i :: ExtensionMatchAt(s, i) ==> StripExtension(s) == s[..i]
    ensures (forall i :: !ExtensionMatchAt(s, i)) ==> StripExtension(s) == s
  {
    var j := LastIndexOf(s, '.');
    if 0 <= j < |s| - 1 && '/' !in s[j + 1..] {
      assert ExtensionMatchAt(s, j) by {
        forall k | j < k < |s| ensures s[k] != '/' {
          assert s[k] == s[j + 1..][k - j - 1];
        }
      }
      forall i | ExtensionMatchAt(s, i) ensures i == j {
      }
    } else {
      forall i | 0 <= i < |s| - 1 && s[i] == '.'
        ensures exists k :: i < k < |s| && (s[k] == '/' || s[k] == '.')
      {
        if i < j {
          assert s[j] == '.';
        } else {
          assert i == j && '/' in s[j + 1..];
          var k :| 0 <= k < |s[j + 1..]| && s[j + 1..][k] == '/';
          assert s[j + 1 + k] == '/';
        }
      }
    }
  }

  /** The stem the download handlers name zip entries and archives after. */
  function DownloadStem(originalName: string): string {
    Sanitize(StripExtension(originalName))
  }

  /** For a name without `/`, `path.basename(name, path.extname(name))` cuts at the last `.` unless that is the first character, or the name is `..`. */
  lemma UploadBaseOfPlainName(name: string, j: int)
    requires '/' !in name && j == LastIndexOf(name, '.')
    ensures UploadBase(name) == if j <= 0 || name == ".." then name else name[..j]
  {
    NoSlashTrim(name);
    assert LastPart(name) == name;
  }

  /** For a name without `/`, the regex strip cuts at the last `.` unless that is the last character. */
  lemma StripExtensionOfPlainName(name: string, j: int)
    requires '/' !in name && j == LastIndexOf(name, '.')
    ensures StripExtension(name) == if 0 <= j < |name| - 1 then name[..j] else name
  {
    if 0 <= j < |name| - 1 {
      assert '/' !in name[j + 1..];
    }
  }

  /**
   * For a name without `/` whose last `.` is at `j` (-1 for none), the
   * upload and download stems agree except on two shapes: a name whose only
   * counted `.` is its first character (`.png`, `..png` does not count), and
   * a name ending in `.` other than `..` (`logo.`).
   */
  lemma StemsAgreeIff(name: string, j: int)
    requires '/' !in name && j == LastIndexOf(name, '.')
    ensures UploadStem(name) == DownloadStem(name) <==>
      !(j == 0 && |name| > 1) && !(j >= 1 && j == |name| - 1 && name != "..")
  {
    calc <==> {
      UploadStem(name) == DownloadStem(name);
      { StemsAgreeIffCutsAgree(name); }
      UploadBase(name) == StripExtension(name);
      { CutsAgreeIff(name, j); }
      !(j == 0 && |name| > 1) && !(j >= 1 && j == |name| - 1 && name != "..");
    }
  }

  /** The stems agree exactly when the two cuts of the name do. */
  lemma StemsAgreeIffCutsAgree(name: string)
    requires '/' !in name
    ensures UploadStem(name) == DownloadStem(name) <==> UploadBase(name) == StripExtension(name)
  {
    var j := LastIndexOf(name, '.');
    UploadBaseOfPlainName(name, j);
    StripExtensionOfPlainName(name, j);
    CutsCompare(name, j, UploadBase(name), StripExtension(name));
    SanitizeSeparates(UploadBase(name), StripExtension(name));
  }

  /** Where the two cuts of a name without `/` differ: `.png` and `logo.`. */
  lemma CutsAgreeIff(name: string, j: int)
    requires '/' !in name && j == LastIndexOf(name, '.')
    ensures UploadBase(name) == StripExtension(name) <==> !(j == 0 && |name| > 1) && !(j >= 1 && j == |name| - 1 && name != "..")
  {
    UploadBaseOfPlainName(name, j);
    StripExtensionOfPlainName(name, j);
    CutsCompare(name, j, UploadBase(name), StripExtension(name));
  }

  /** The two cuts at the last dot `j` of `name`, compared. */
  lemma CutsCompare(name: string, j: int, up: string, down: string)
    requires -1 <= j < |name|
    requires up == if j <= 0 || name == ".." then name else name[..j]
    requires down == if 0 <= j < |name| - 1 then name[..j] else name
    ensures up == down <==> !(j == 0 && |name| > 1) && !(j >= 1 && j == |name| - 1 && name != "..")
    ensures up == down || |up| != |down|
  {
    if j == 0 && |name| > 1 {
      assert |down| == 0;
    } else if j >= 1 && j == |name| - 1 && name != ".." {
      assert |up| < |name|;
    }
  }

  /** Sanitising keeps apart two strings of different lengths. */
  lemma SanitizeSeparates(a: string, b: string)
    requires a == b || |a| != |b|
    ensures Sanitize(a) == Sanitize(b) <==> a == b
  {
    if |a| != |b| {
      assert |Sanitize(a)| == |a| && |Sanitize(b)| == |b|;
    }
  }

  // ---------------------------------------------------------------------
  // Decimal numbers (`size.toString()`, a `Date.now()` timestamp in a template)

  function DigitChar(d: nat): (c: char)
    requires d < 10
    ensures '0' <= c <= '9'
  {
    ('0' as int + d) as char
  }

  predicate IsDigit(c: char) {
    '0' <= c <= '9'
  }

  /** The decimal numeral of `n`. */
  function NatToString(n: nat): (r: string)
    ensures |r| >= 1
    ensures forall i :: 0 <= i < |r| ==> IsDigit(r[i])
    ensures r[0] == '0' ==> n == 0
  {
    if n < 10 then [DigitChar(n)] else NatToString(n / 10) + [DigitChar(n % 10)]
  }

  /** The value of a string of decimal digits. */
  function DecimalValue(s: string): nat
    requires forall i :: 0 <= i < |s| ==> IsDigit(s[i])
  {
    if s == [] then 0
    else
      assert IsDigit(s[|s| - 1]);
      DecimalValue(s[..|s| - 1]) * 10 + (s[|s| - 1] as int - '0' as int)
  }

  /** Reading the numeral back gives the number. */
  lemma {:induction false} NatToStringRoundTrip(n: nat)
    ensures DecimalValue(NatToString(n)) == n
  {
    if n >= 10 {
      NatToStringRoundTrip(n / 10);
      var s := NatToString(n);
      assert s[..|s| - 1] == NatToString(n / 10);
    }
  }

  /** Distinct numbers have distinct numerals. */
  lemma NatToStringInjective(m: nat, n: nat)
    requires NatToString(m) == NatToString(n)
    ensures m == n
  {
    NatToStringRoundTrip(m);
    NatToStringRoundTrip(n);
  }

  // ---------------------------------------------------------------------
  // Output files, their URLs and zip entries

  const FaviconUrlPrefix := "/api/favicons/"

  /** `${stem}_${size}x${size}_${timestamp}.png` */
  function OutputFilename(stem: string, size: nat, timestamp: nat): string {
    stem + "_" + NatToString(size) + "x" + NatToString(size) + "_" + NatToString(timestamp) + ".png"
  }

  /** `/api/favicons/${outputFilename}` */
  function FaviconUrl(filename: string): string {
    FaviconUrlPrefix + filename
  }

  /** `${stem}_${size}x${size}.png`, with the size as the `sizes` key string. */
  function ZipEntryName(stem: string, sizeKey: string): string {
    stem + "_" + sizeKey + "x" + sizeKey + ".png"
  }

  /** `${stem}_favicons.zip` */
  function ZipFileName(stem: string): string {
    stem + "_favicons.zip"
  }

  lemma DigitsHaveNoSlash(s: string)
    requires forall i :: 0 <= i < |s| ==> IsDigit(s[i])
    ensures '/' !in s
  {
    forall i | 0 <= i < |s| ensures s[i] != '/' {
      assert IsDigit(s[i]);
    }
  }

  /**
   * The download handlers recover the output file name from the URL the
   * upload handler stored: its last `/` segment is the file name, when the
   * stem has no `/` (a sanitised stem never does).
   */
  lemma UrlLastSegment(stem: string, size: nat, timestamp: nat)
    requires '/' !in stem
    ensures LastSegment(FaviconUrl(OutputFilename(stem, size, timestamp))) == OutputFilename(stem, size, timestamp)
    ensures OutputFilename(stem, size, timestamp) != ""
  {
    var f := OutputFilename(stem, size, timestamp);
    DigitsHaveNoSlash(NatToString(size));
    DigitsHaveNoSlash(NatToString(timestamp));
    assert '/' !in f;
    var u := FaviconUrl(f);
    var j := LastIndexOf(u, '/');
    assert u[|FaviconUrlPrefix| - 1] == '/';
    forall k | |FaviconUrlPrefix| <= k < |u| ensures u[k] != '/' {
      assert u[k] == f[k - |FaviconUrlPrefix|];
    }
    assert j == |FaviconUrlPrefix| - 1;
    assert u[j + 1..] == f;
  }

  // ---------------------------------------------------------------------
  // The upload filter

  const AllowedMimes: seq<string> := ["image/jpeg", "image/png", "image/gif", "image/svg+xml"]

  const InvalidTypeMessage := "Invalid file type. Only JPG, PNG, GIF and SVG are allowed."

  /** The multer `fileFilter`: None accepts the file, Some(m) rejects it with the error message `m`. */
  function FileFilter(mimetype: string): (r: Option<string>)
    ensures r.None? <==>
      mimetype == "image/jpeg" || mimetype == "image/png" ||
      mimetype == "image/gif" || mimetype == "image/svg+xml"
    ensures r.Some? ==> r.value == InvalidTypeMessage
  {
    if mimetype in AllowedMimes then None else Some(InvalidTypeMessage)
  }
}
