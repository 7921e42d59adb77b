/** The upload filename check of sirius/web/printer_print.py: `ALLOWED_EXTENSIONS`
    and `allowed_file`, with Python's `str.rsplit(sep, 1)` modelled explicitly. */
module Upload {
  import opened Wrappers

  /** The extensions accepted for an uploaded image, compared case-sensitively. */
  const AllowedExtensions: set<string> := {"png", "jpg", "jpeg", "gif"}

  /** Position of the last occurrence of `c` in `s`, or None when `c` does not occur. */
  function LastIndexOf(s: string, c: char): (r: Option<nat>)
    ensures r.None? <==> c !in s
    ensures r.Some? ==> r.value < |s| && s[r.value] == c && c !in s[r.value + 1..]
  {
    if |s| == 0 then None
    else if s[|s| - 1] == c then Some(|s| - 1)
    else
      assert s == s[..|s| - 1] + [s[|s| - 1]];
      LastIndexOf(s[..|s| - 1], c)
  }

  /** Python's `s.rsplit(sep, 1)`: the whole string when `sep` does not occur,
      otherwise the text before and the text after the last `sep`. */
  function RSplitOnce(s: string, sep: char): (parts: seq<string>)
    ensures 1 <= |parts| <= 2
    ensures |parts| == 1 <==> sep !in s
    ensures |parts| == 1 ==> parts[0] == s
    ensures |parts| == 2 ==> parts[0] + [sep] + parts[1] == s && sep !in parts[1]
  {
    match LastIndexOf(s, sep)
    case None => [s]
    case Some(k) =>
      assert s == s[..k] + [sep] + s[k + 1..];
      [s[..k], s[k + 1..]]
  }

  /** Two splittings of one string at an occurrence of `sep` that is followed by no
      other `sep` are the same splitting. */
  lemma {:induction false} LastSeparatorUnique(a: string, b: string, c: string, d: string, sep: char)
    requires a + [sep] + b == c + [sep] + d
    requires sep !in b && sep !in d
    ensures a == c && b == d
  {
    var s := a + [sep] + b;
    // a longer tail would contain the other split's separator
    assert s[|a|] == sep && s[|c|] == sep;
    assert forall i :: |c| < i < |s| ==> s[i] == d[i - |c| - 1];
    assert forall i :: |a| < i < |s| ==> s[i] == b[i - |a| - 1];
    assert a == s[..|a|] == c;
    assert b == s[|a| + 1..] == d;
  }

  /** In a name that contains a dot, the last dot is the one `rsplit` splits at:
      any dot followed by no other dot sits right after the first part. */
  lemma LastDotSplit(filename: string)
    requires '.' in filename
    ensures forall k :: 0 <= k < |filename| && filename[k] == '.' && '.' !in filename[k + 1..] ==>
      RSplitOnce(filename, '.') == [filename[..k], filename[k + 1..]]
  {
    var parts := RSplitOnce(filename, '.');
    forall k | 0 <= k < |filename| && filename[k] == '.' && '.' !in filename[k + 1..]
      ensures parts == [filename[..k], filename[k + 1..]]
    {
      assert filename == filename[..k] + ['.'] + filename[k + 1..];
      LastSeparatorUnique(parts[0], parts[1], filename[..k], filename[k + 1..], '.');
    }
  }

  /** `allowed_file`: the name contains a dot and the text after its last dot is one
      of the allowed extensions. The ensures gives the same decision without
      `rsplit`: some dot, followed by no other dot, is followed by an allowed
      extension. */
  predicate AllowedFile(filename: string)
    ensures AllowedFile(filename) <==>
      exists k :: 0 <= k < |filename| && filename[k] == '.' && '.' !in filename[k + 1..]
        && filename[k + 1..] in AllowedExtensions
  {
    '.' in filename && (
      LastDotSplit(filename);
      var parts := RSplitOnce(filename, '.');
      assert filename[|parts[0]|] == '.' && filename[|parts[0]| + 1..] == parts[1];
      parts[1] in AllowedExtensions)
  }

  /** Whatever precedes the last dot, only the text after it decides: a name made of
      a stem, a dot and a dot-free extension is accepted exactly when that extension
      is allowed. */
  lemma {:induction false} ExtensionAfterLastDot(stem: string, ext: string)
    requires '.' !in ext
    ensures AllowedFile(stem + "." + ext) <==> ext in AllowedExtensions
  {
    var f := stem + "." + ext;
    assert f[|stem|] == '.' && f[|stem| + 1..] == ext;
    LastDotSplit(f);
  }

  /** A name without a dot is never accepted, whatever it spells. */
  lemma NoDotRejected(filename: string)
    requires '.' !in filename
    ensures !AllowedFile(filename)
  {
  }

  /** A double extension is judged by its last part. */
  lemma DoubleExtensionAccepted()
    ensures AllowedFile("a.tar.png")
  {
    assert "a.tar" + "." + "png" == "a.tar.png";
    ExtensionAfterLastDot("a.tar", "png");
  }

  /** An allowed extension followed by another one does not count. */
  lemma TrailingExtensionRejected()
    ensures !AllowedFile("x.png.exe")
  {
    assert "x.png" + "." + "exe" == "x.png.exe";
    ExtensionAfterLastDot("x.png", "exe");
  }

  /** The comparison is case-sensitive. */
  lemma UpperCaseRejected()
    ensures !AllowedFile("photo.PNG")
  {
    assert "photo" + "." + "PNG" == "photo.PNG";
    ExtensionAfterLastDot("photo", "PNG");
  }

  /** A name ending in a dot has the empty extension, which is not allowed. */
  lemma EmptyExtensionRejected()
    ensures !AllowedFile("photo.")
  {
    assert "photo" + "." + "" == "photo.";
    ExtensionAfterLastDot("photo", "");
  }

  /** A name that is only a dot and an allowed extension is accepted. */
  lemma BareDotExtensionAccepted()
    ensures AllowedFile(".gif")
  {
    assert "" + "." + "gif" == ".gif";
    ExtensionAfterLastDot("", "gif");
  }
}
