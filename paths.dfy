/**
 * The string operations on file names and paths that the entry points use:
 * `str.lower`, `str.endswith`, `str.rfind`, `os.path.basename`, pathlib's
 * `name`, `stem` and `suffix`, and `str.rsplit('.', 1)[0]`.
 */
module Paths {
  import opened Wrappers

  /** The two accepted spreadsheet extensions, in lower case. */
  const Xlsx := ".xlsx"
  const Xlsm := ".xlsm"

  /** Lower-casing of one character (ASCII letters only). */
  function LowerChar(ch: char): char
  {
    if 'A' <= ch <= 'Z' then (ch as int + 32) as char else ch
  }

  /** `s.lower()`, character by character. */
  function Lower(s: string): (r: string)
    ensures |r| == |s|
    ensures forall i :: 0 <= i < |s| ==> r[i] == LowerChar(s[i])
  {
    seq(|s|, i requires 0 <= i < |s| => LowerChar(s[i]))
  }

  /** `s.endswith(tail)`. */
  predicate EndsWith(s: string, tail: string)
  {
    |tail| <= |s| && s[|s| - |tail|..] == tail
  }

  /** `s.lower().endswith(('.xlsx', '.xlsm'))`: the extension test of the batch tool and the uploader. */
  predicate HasExcelExtension(s: string)
  {
    EndsWith(Lower(s), Xlsx) || EndsWith(Lower(s), Xlsm)
  }

  /** `s.rfind(ch)`: the index of the last occurrence of `ch`, if any. */
  function LastIndexOf(s: string, ch: char): (r: Option<nat>)
    ensures r.Some? ==> r.value < |s| && s[r.value] == ch
    ensures r.Some? ==> forall j :: r.value < j < |s| ==> s[j] != ch
    ensures r.None? ==> forall j :: 0 <= j < |s| ==> s[j] != ch
  {
    if |s| == 0 then None
    else if s[|s| - 1] == ch then Some(|s| - 1)
    else LastIndexOf(s[..|s| - 1], ch)
  }

  /**
   * `os.path.basename(p)`, which for a path whose last component is a file name
   * is also pathlib's `Path(p).name`: everything after the last '/'.
   */
  function Basename(p: string): (name: string)
    ensures '/' !in name
    ensures EndsWith(p, name)
    ensures '/' !in p ==> name == p
  {
    match LastIndexOf(p, '/')
    case None => p
    case Some(i) => p[i + 1..]
  }

  /** The base name is everything after the last '/': the whole path, or the part that a '/' precedes. */
  lemma BasenameAfterLastSlash(p: string)
    ensures Basename(p) == p || (|Basename(p)| < |p| && p[|p| - |Basename(p)| - 1] == '/')
  {
  }

  /**
   * Where pathlib's `suffix` starts: at the last '.', provided that dot is
   * neither the first nor the last character of the name.
   */
  function SuffixStart(name: string): (r: Option<nat>)
    ensures r.Some? ==> 0 < r.value < |name| - 1 && name[r.value] == '.'
    ensures r.Some? ==> forall j :: r.value < j < |name| ==> name[j] != '.'
    ensures r.None? ==> forall j :: 0 < j < |name| - 1 && name[j] == '.' ==> name[|name| - 1] == '.'
  {
    match LastIndexOf(name, '.')
    case None => None
    case Some(i) => if 0 < i < |name| - 1 then Some(i) else None
  }

  /** pathlib's `suffix`: empty, or a dot, at least one more character, and no further dot. */
  function Suffix(name: string): (s: string)
    ensures EndsWith(name, s)
    ensures s == "" || (|s| >= 2 && s[0] == '.' && '.' !in s[1..])
    ensures s != "" ==> |s| < |name|
    ensures s == "" <==> SuffixStart(name).None?
  {
    match SuffixStart(name)
    case None => ""
    case Some(i) => name[i..]
  }

  /** pathlib's `stem`: the name without its suffix. */
  function Stem(name: string): (s: string)
    ensures s + Suffix(name) == name
  {
    match SuffixStart(name)
    case None => name
    case Some(i) => name[..i]
  }

  /** `s.rsplit('.', 1)[0]`: everything before the last '.', or all of `s` when it has none. */
  function BeforeLastDot(s: string): (head: string)
    ensures head <= s
    ensures head == s <==> '.' !in s
    ensures '.' in s ==> s[|head|] == '.' && '.' !in s[|head| + 1..]
  {
    match LastIndexOf(s, '.')
    case None => s
    case Some(i) => s[..i]
  }

  /** Lower-casing commutes with taking a tail. */
  lemma {:induction false} LowerTail(s: string, k: nat)
    requires k <= |s|
    ensures Lower(s[k..]) == Lower(s)[k..]
  {
    assert forall i :: 0 <= i < |s| - k ==> Lower(s[k..])[i] == Lower(s)[k..][i];
  }

  /** Only 'A'..'Z' lower-case to 'x', 'l', 's' or 'm', and nothing but '.' lower-cases to '.'. */
  lemma {:induction false} ExtensionCharacters(s: string, ext: string)
    requires ext == Xlsx || ext == Xlsm
    requires EndsWith(Lower(s), ext)
    ensures s[|s| - 5] == '.'
    ensures forall j :: |s| - 5 < j < |s| ==> s[j] != '.'
  {
    assert Lower(s)[|s| - 5] == '.';
    forall j | |s| - 5 < j < |s|
      ensures s[j] != '.'
    {
      assert Lower(s)[j] == ext[j - (|s| - 5)];
    }
  }

  /** A name that passes the extension test has its last '.' exactly five characters from the end. */
  lemma {:induction false} ExcelExtensionDot(s: string)
    requires HasExcelExtension(s)
    ensures |s| >= 5
    ensures LastIndexOf(s, '.') == Some(|s| - 5)
  {
    var ext := if EndsWith(Lower(s), Xlsx) then Xlsx else Xlsm;
    ExtensionCharacters(s, ext);
    var r := LastIndexOf(s, '.');
    assert r.Some? by {
      assert s[|s| - 5] == '.';
    }
  }

  /**
   * `rsplit('.', 1)[0]` on a path that passes the extension test removes exactly
   * the five-character extension.
   */
  lemma BeforeLastDotOfExcelPath(p: string)
    requires HasExcelExtension(p)
    ensures |p| >= 5 && BeforeLastDot(p) == p[..|p| - 5]
  {
    ExcelExtensionDot(p);
  }

  /**
   * pathlib's `suffix` of a name that passes the extension test is its last five
   * characters, unless the name is the bare extension (a dot-file such as
   * ".xlsx"), whose suffix is empty.
   */
  lemma SuffixOfExcelName(name: string)
    requires HasExcelExtension(name)
    ensures |name| > 5 ==> Suffix(name) == name[|name| - 5..]
    ensures |name| == 5 ==> Suffix(name) == ""
  {
    ExcelExtensionDot(name);
  }

  /** `os.path.join(folder, name)` for a relative file name: the base name of the result is `name`. */
  lemma BasenameOfJoin(folder: string, name: string)
    requires '/' !in name
    ensures Basename(folder + "/" + name) == name
  {
    var p := folder + "/" + name;
    var r := LastIndexOf(p, '/');
    assert p[|folder|] == '/';
    assert r.Some? && r.value >= |folder|;
    assert p[|folder| + 1..] == name;
  }

  /** The extension test looks at the last five characters only. */
  lemma ExcelExtensionByLastFive(s: string)
    ensures HasExcelExtension(s) <==> |s| >= 5 && (Lower(s[|s| - 5..]) == Xlsx || Lower(s[|s| - 5..]) == Xlsm)
  {
    if |s| >= 5 {
      LowerTail(s, |s| - 5);
    }
  }

  /** A name whose tail passes the extension test passes it too. */
  lemma ExcelExtensionOfConcat(head: string, tail: string)
    requires HasExcelExtension(tail)
    ensures HasExcelExtension(head + tail)
  {
    ExcelExtensionByLastFive(tail);
    ExcelExtensionByLastFive(head + tail);
    assert (head + tail)[|head + tail| - 5..] == tail[|tail| - 5..];
  }

  /** The suffix of a name that passes the extension test, and is longer than it, passes it too. */
  lemma ExcelSuffixIsExcel(name: string)
    requires HasExcelExtension(name) && |name| > 5
    ensures Suffix(name) == name[|name| - 5..] && HasExcelExtension(Suffix(name))
  {
    SuffixOfExcelName(name);
    LowerTail(name, |name| - 5);
  }

  /** A path passes the extension test exactly when its base name does. */
  lemma ExcelNameOfExcelPath(p: string)
    ensures HasExcelExtension(p) <==> HasExcelExtension(Basename(p))
  {
    var name := Basename(p);
    assert p[|p| - |name|..] == name;
    BasenameAfterLastSlash(p);
    ExcelExtensionByLastFive(p);
    ExcelExtensionByLastFive(name);
    if |name| >= 5 {
      assert p[|p| - 5..] == name[|name| - 5..];
    } else if |p| >= 5 {
      // the '/' before a short base name falls within the last five characters
      var k := 4 - |name|;
      assert p[|p| - 5..][k] == '/';
      assert Lower(p[|p| - 5..])[k] == '/';
    }
  }

  /** Stem and suffix of a name without '/' have no '/' either. */
  lemma StemSuffixWithoutSlash(name: string)
    requires '/' !in name
    ensures '/' !in Stem(name) && '/' !in Suffix(name)
  {
    var stem, sfx := Stem(name), Suffix(name);
    assert stem + sfx == name;
    forall j | 0 <= j < |stem| ensures stem[j] != '/' { assert stem[j] == name[j]; }
    forall j | 0 <= j < |sfx| ensures sfx[j] != '/' { assert sfx[j] == name[|stem| + j]; }
  }

  /** A character in neither part is not in their concatenation. */
  lemma NotInConcat(a: string, b: string, ch: char)
    requires ch !in a && ch !in b
    ensures ch !in a + b
  {
    forall j | 0 <= j < |a + b| ensures (a + b)[j] != ch {
      if j >= |a| { assert (a + b)[j] == b[j - |a|]; }
    }
  }
}
