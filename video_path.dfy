/**
 * `CamService.getVideoFilePath`: the recording goes to `"<millis>.mp4"`,
 * inside the app's external files directory when there is one.
 *
 * The clock (`System.currentTimeMillis()`) and the directory lookup
 * (`context?.getExternalFilesDir(null)`, null when there is no context or
 * no external storage) are parameters.
 */
module VideoPath {
  import opened Wrappers

  function DigitChar(d: nat): (c: char)
    requires d < 10
    ensures '0' <= c <= '9'
  {
    ['0', '1', '2', '3', '4', '5', '6', '7', '8', '9'][d]
  }

  function DigitValue(c: char): (d: nat)
    requires '0' <= c <= '9'
    ensures d < 10 && DigitChar(d) == c
  {
    (c as int - '0' as int)
  }

  predicate IsDigits(s: string) {
    forall i :: 0 <= i < |s| ==> '0' <= s[i] <= '9'
  }

  /** Kotlin's `Long.toString` for a non-negative number: decimal, no leading zeros. */
  function DecimalString(n: nat): (s: string)
    ensures |s| > 0 && IsDigits(s)
    ensures |s| > 1 ==> s[0] != '0'
  {
    if n < 10 then [DigitChar(n)] else DecimalString(n / 10) + [DigitChar(n % 10)]
  }

  /** Reads a decimal numeral. */
  function ParseDecimal(s: string): nat
    requires IsDigits(s)
  {
    if s == [] then 0 else ParseDecimal(s[..|s| - 1]) * 10 + DigitValue(s[|s| - 1])
  }

  lemma {:induction false} DecimalRoundTrip(n: nat)
    ensures ParseDecimal(DecimalString(n)) == n
  {
    if n >= 10 {
      var s := DecimalString(n);
      assert s[..|s| - 1] == DecimalString(n / 10);
      DecimalRoundTrip(n / 10);
    }
  }

  const Extension: string := ".mp4"

  /**
   * The filename `"${System.currentTimeMillis()}.mp4"`: a numeral followed
   * by the `.mp4` extension, with no '/' in it.
   */
  function VideoFileName(millis: nat): (name: string)
    ensures |name| > |Extension| && name[|name| - |Extension|..] == Extension
    ensures IsDigits(name[..|name| - |Extension|])
    ensures forall j :: 0 <= j < |name| ==> name[j] != '/'
  {
    var digits := DecimalString(millis);
    var name := digits + Extension;
    assert name[..|name| - |Extension|] == digits;
    assert name[|name| - |Extension|..] == Extension;
    forall j | 0 <= j < |name| ensures name[j] != '/' {
      if j < |digits| { assert name[j] == digits[j]; }
    }
    name
  }

  /**
   * `getVideoFilePath`: the bare filename, or `"${dir.absolutePath}/$filename"`.
   * The separator it adds is the LAST '/' of the path, so the filename is
   * exactly what follows the last '/', whatever the directory contains.
   */
  function VideoFilePath(millis: nat, dir: Option<string>): (path: string)
    ensures dir.None? ==> LastSlash(path) == None && path == VideoFileName(millis)
    ensures dir.Some? ==>
              (LastSlash(path) == Some(|dir.value|) && path[..|dir.value|] == dir.value
               && path[|dir.value| + 1..] == VideoFileName(millis))
  {
    var name := VideoFileName(millis);
    match dir
    case None => name
    case Some(d) =>
      var path := d + "/" + name;
      assert path == (d + "/") + name;
      assert path[|d|] == '/';
      assert forall j :: |d| < j < |path| ==> path[j] == name[j - |d| - 1];
      assert LastSlash(path) == Some(|d|);
      assert path[..|d|] == d;
      assert path[|d| + 1..] == name;
      path
  }

  /** Index of the last '/' in `s`, if any. */
  function LastSlash(s: string): (r: Option<nat>)
    ensures r.Some? ==> (r.value < |s| && s[r.value] == '/'
                         && forall j :: r.value < j < |s| ==> s[j] != '/')
    ensures r.None? ==> forall j :: 0 <= j < |s| ==> s[j] != '/'
  {
    if s == [] then None
    else if s[|s| - 1] == '/' then Some(|s| - 1)
    else LastSlash(s[..|s| - 1])
  }

  /**
   * Splits a path as `getVideoFilePath` builds it into the time stamp and
   * the directory; anything else is rejected.
   */
  function ParseVideoFilePath(path: string): Option<(nat, Option<string>)> {
    var (dir, name) :=
      match LastSlash(path)
      case None => (None, path)
      case Some(k) => (Some(path[..k]), path[k + 1..]);
    if |name| > |Extension| && name[|name| - |Extension|..] == Extension
       && IsDigits(name[..|name| - |Extension|])
    then Some((ParseDecimal(name[..|name| - |Extension|]), dir))
    else None
  }

  /**
   * The path determines both inputs: the time stamp and whether, and which,
   * directory was used. No directory name, whatever its characters, can
   * make two calls produce the same path.
   */
  lemma VideoFilePathRoundTrip(millis: nat, dir: Option<string>)
    ensures ParseVideoFilePath(VideoFilePath(millis, dir)) == Some((millis, dir))
  {
    var name := VideoFileName(millis);
    assert name[..|name| - |Extension|] == DecimalString(millis);
    DecimalRoundTrip(millis);
  }
}
