/**
 * Resource path normalisation: every backslash becomes a forward slash, then a
 * single leading slash is dropped.
 */
module PathUtils {

  /** A path separator of either kind. */
  predicate IsSeparator(c: char)
  {
    c == '/' || c == '\\'
  }

  /** The character that stands in place of `c` once backslashes are converted. */
  function Forward(c: char): char
  {
    if c == '\\' then '/' else c
  }

  /**
   * `path.replaceAll("\\\\", "/")`: the regular expression `\\` matches one
   * backslash, and every match is replaced by a forward slash.
   */
  function ReplaceBackslashes(path: string): (r: string)
    ensures |r| == |path|
    ensures forall i :: 0 <= i < |path| ==> r[i] == Forward(path[i])
    ensures '\\' !in r
  {
    if path == [] then []
    else [Forward(path[0])] + ReplaceBackslashes(path[1..])
  }

  /**
   * `PathUtils.normalizeResourcePath`: convert the separators, then, when the
   * converted path starts with `/`, remove that first `/` (`replaceFirst("/", "")`
   * removes the first occurrence, which is the leading one).
   */
  function NormalizeResourcePath(path: string): (r: string)
    ensures '\\' !in r
    ensures |path| > 0 && IsSeparator(path[0]) ==>
      |r| == |path| - 1 && forall i :: 0 <= i < |r| ==> r[i] == Forward(path[i + 1])
    ensures !(|path| > 0 && IsSeparator(path[0])) ==>
      |r| == |path| && forall i :: 0 <= i < |r| ==> r[i] == Forward(path[i])
  {
    var converted := ReplaceBackslashes(path);
    if |converted| > 0 && converted[0] == '/' then converted[1..] else converted
  }

  /** A path that already uses forward slashes and has no leading slash is left as it is. */
  lemma NormalizedPathUnchanged(path: string)
    requires '\\' !in path
    requires |path| == 0 || path[0] != '/'
    ensures NormalizeResourcePath(path) == path
  {
    var r := NormalizeResourcePath(path);
    assert |r| == |path|;
    forall i | 0 <= i < |path| ensures r[i] == path[i] {
      assert path[i] != '\\';
    }
  }

  /**
   * The result starts with a slash exactly when the input starts with two
   * separators: only one leading separator is removed.
   */
  lemma LeadingSlashSurvivesOnlyDoubleSeparator(path: string)
    ensures var r := NormalizeResourcePath(path);
      (|r| > 0 && r[0] == '/') <==> (|path| >= 2 && IsSeparator(path[0]) && IsSeparator(path[1]))
  {
  }

  /** `//a` normalises to `/a`, which still has a leading slash. */
  lemma DoubleSlashKeepsOneSlash()
    ensures NormalizeResourcePath("//a") == "/a"
  {
    var r := NormalizeResourcePath("//a");
    assert |r| == 2 && r[0] == '/' && r[1] == 'a';
  }

  /** Normalising a normalised path changes nothing, unless the first pass left a leading slash. */
  lemma NormalizeIdempotentWithoutLeadingSlash(path: string)
    requires !(|path| >= 2 && IsSeparator(path[0]) && IsSeparator(path[1]))
    ensures NormalizeResourcePath(NormalizeResourcePath(path)) == NormalizeResourcePath(path)
  {
    var r := NormalizeResourcePath(path);
    LeadingSlashSurvivesOnlyDoubleSeparator(path);
    NormalizedPathUnchanged(r);
  }

}
