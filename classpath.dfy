/** Values shared by the task's helpers. */
module Files {

  /** A java.io.File as the task reads it: its last path component
      (`getName()`) and whether it denotes a directory (`isDirectory()`). */
  datatype File = File(name: string, isDirectory: bool)

  /** A Java reference that may be null. */
  datatype Option<T> = None | Some(value: T)

  /** A destination directory, held as its full path (not only its last component). */
  type Path = string
}

/** The classpath filter of EnunciateTask: which files of the classpath
    configuration are handed to Enunciate. */
module Classpath {
  import opened Files

  /** The archive types accepted on the classpath (same list as the Enunciate Maven plugin). */
  const ValidClasspathTypes: seq<string> := ["jar", "bundle", "eclipse-plugin", "ejb", "ejb-client"]

  /** The characters that Java's regex `.` does not match when no flag is given. */
  predicate IsLineTerminator(c: char) {
    c == '\n' || c == '\r' || c == '\U{0085}' || c == '\U{2028}' || c == '\U{2029}'
  }

  predicate HasLineTerminator(s: string) {
    exists i :: 0 <= i < |s| && IsLineTerminator(s[i])
  }

  /** The end of the first line of `s`: the index of its first line terminator, or |s|. */
  function LineEnd(s: string): (k: nat)
    ensures k <= |s|
    ensures forall i :: 0 <= i < k ==> !IsLineTerminator(s[i])
    ensures k < |s| ==> IsLineTerminator(s[k])
  {
    if s == [] || IsLineTerminator(s[0]) then 0 else 1 + LineEnd(s[1..])
  }

  /** Index of the last '.' in `s`, or -1 when there is none. */
  function LastDot(s: string): (d: int)
    ensures -1 <= d < |s|
    ensures d >= 0 ==> s[d] == '.'
    ensures forall j :: d < j < |s| ==> s[j] != '.'
  {
    if s == [] then -1
    else if s[|s| - 1] == '.' then |s| - 1
    else LastDot(s[..|s| - 1])
  }

  /** Java's `s.replaceFirst(".*[.]", "")`. The leftmost match of the pattern
      starts at the beginning of the first line that holds a '.'; since `.*`
      is greedy and stops at a line terminator, it ends at the last '.' of
      that line. The match is deleted; a string with no '.' is unchanged. */
  function StripThroughLastDot(s: string): (r: string)
    ensures '.' !in s ==> r == s
    ensures '.' in s ==> |r| < |s|
    decreases |s|
  {
    var k := LineEnd(s);
    var d := LastDot(s[..k]);
    if d >= 0 then
      assert s[d] == s[..k][d];
      s[d + 1..]
    else if k == |s| then
      assert s[..k] == s;
      s
    else
      DotsAfterFirstLine(s, k);
      s[..k + 1] + StripThroughLastDot(s[k + 1..])
  }

  /** When the first line of `s` (ending at the terminator `s[k]`) holds no
      '.', the dots of `s` are those after that line. */
  lemma DotsAfterFirstLine(s: string, k: nat)
    requires k < |s| && IsLineTerminator(s[k]) && LastDot(s[..k]) < 0
    ensures s == s[..k + 1] + s[k + 1..]
    ensures '.' in s <==> '.' in s[k + 1..]
  {
    assert s == s[..k + 1] + s[k + 1..];
    if '.' in s {
      var j :| 0 <= j < |s| && s[j] == '.';
      assert s[k + 1..][j - k - 1] == s[j];
    }
  }

  /** Reference definition of a file's extension: everything after the last
      '.', or the whole name when it has no '.'. */
  function AfterLastDot(s: string): (r: string)
    ensures '.' !in r
    ensures '.' !in s ==> r == s
    ensures '.' in s ==> |r| < |s| && s[|s| - |r| - 1] == '.' && s[|s| - |r|..] == r
  {
    var d := LastDot(s);
    if d < 0 then s else s[d + 1..]
  }

  function LowerChar(c: char): char {
    if 'A' <= c <= 'Z' then (c as int + 32) as char else c
  }

  /** `String.toLowerCase()` restricted to ASCII letters. */
  function ToLowerAscii(s: string): (r: string)
    ensures |r| == |s|
    ensures forall i :: 0 <= i < |s| ==> r[i] == LowerChar(s[i])
    ensures forall i :: 0 <= i < |r| ==> !('A' <= r[i] <= 'Z')
    ensures forall i :: 0 <= i < |s| && !('A' <= s[i] <= 'Z') ==> r[i] == s[i]
  {
    seq(|s|, i requires 0 <= i < |s| => LowerChar(s[i]))
  }

  /** The "type" the task derives from a file name. */
  function ClasspathType(f: File): (t: string)
    ensures '.' !in f.name ==> t == ToLowerAscii(f.name)
  {
    ToLowerAscii(StripThroughLastDot(f.name))
  }

  /** `isValidClasspathElement`: a directory, or a file whose type is allowed. */
  function IsValidClasspathElement(f: File): (b: bool)
    ensures f.isDirectory ==> b
    ensures !f.isDirectory && '.' !in f.name ==> (b <==> ToLowerAscii(f.name) in ValidClasspathTypes)
  {
    f.isDirectory || ClasspathType(f) in ValidClasspathTypes
  }

  /** `getClasspathJars`: the valid elements of the configuration's files, in order. */
  function GetClasspathJars(files: seq<File>): (r: seq<File>)
    ensures |r| <= |files|
    ensures forall f :: f in r <==> f in files && IsValidClasspathElement(f)
  {
    if files == [] then []
    else (if IsValidClasspathElement(files[0]) then [files[0]] else []) + GetClasspathJars(files[1..])
  }

  /** `r` can be obtained from `s` by deleting elements. */
  predicate IsSubsequence<T(==)>(r: seq<T>, s: seq<T>) {
    r == [] || (s != [] && ((r[0] == s[0] && IsSubsequence(r[1..], s[1..])) || IsSubsequence(r, s[1..])))
  }

  // ---- The type of a name ------------------------------------------------

  /** On a name written on one line, the regex strips exactly up to the last '.'. */
  lemma {:induction false} StripOneLine(s: string)
    requires !HasLineTerminator(s)
    ensures StripThroughLastDot(s) == AfterLastDot(s)
  {
    assert s[..LineEnd(s)] == s;
  }

  /** A line terminator in the name survives into the stripped name. */
  lemma StripKeepsLineTerminator(s: string)
    requires HasLineTerminator(s)
    ensures HasLineTerminator(StripThroughLastDot(s))
  {
    var k := LineEnd(s);
    var i :| 0 <= i < |s| && IsLineTerminator(s[i]);
    assert k <= i < |s|;
    if LastDot(s[..k]) >= 0 {
      StripFirstLineWithDot(s, k);
    } else {
      StripFirstLineWithoutDot(s, k);
    }
  }

  /** The first line holds a '.': what follows its last '.' is kept, the end of the line included. */
  lemma StripFirstLineWithDot(s: string, k: nat)
    requires k == LineEnd(s) < |s| && LastDot(s[..k]) >= 0
    ensures HasLineTerminator(StripThroughLastDot(s))
  {
    var d := LastDot(s[..k]);
    var r := s[d + 1..];
    assert StripThroughLastDot(s) == r;
    TerminatorAt(r, k - d - 1);
  }

  /** The first line holds no '.': it is kept whole, its end included. */
  lemma StripFirstLineWithoutDot(s: string, k: nat)
    requires k == LineEnd(s) < |s| && LastDot(s[..k]) < 0
    ensures HasLineTerminator(StripThroughLastDot(s))
  {
    var r := s[..k + 1] + StripThroughLastDot(s[k + 1..]);
    assert StripThroughLastDot(s) == r;
    TerminatorAt(r, k);
  }

  lemma TerminatorAt(s: string, j: nat)
    requires j < |s| && IsLineTerminator(s[j])
    ensures HasLineTerminator(s)
  {
  }

  /** The name "a.ext" with "ext" free of dots has extension "ext". */
  lemma ExtensionOfDottedName(p: string, ext: string)
    requires '.' !in ext
    ensures AfterLastDot(p + "." + ext) == ext
  {
    var s := p + "." + ext;
    var d := LastDot(s);
    assert s[|p|] == '.';
    assert d >= |p|;
    assert s[d + 1..] == ext;
  }

  /** The type of a one-line name is its lower-cased extension, as
      `AfterLastDot` defines it. */
  lemma TypeOfOneLineName(f: File)
    requires !HasLineTerminator(f.name)
    ensures ClasspathType(f) == ToLowerAscii(AfterLastDot(f.name))
  {
    StripOneLine(f.name);
  }

  /** A file literally named "JAR" has type "jar". */
  lemma TypeOfBareJar()
    ensures ClasspathType(File("JAR", false)) == "jar"
  {
    var s := "JAR";
    LettersOnly(s);
    TypeOfDotlessName(s, false);
    LowerJar(s);
  }

  /** A one-line name without '.' is its own extension. */
  lemma TypeOfDotlessName(s: string, isDirectory: bool)
    requires '.' !in s && !HasLineTerminator(s)
    ensures ClasspathType(File(s, isDirectory)) == ToLowerAscii(s)
  {
    TypeOfOneLineName(File(s, isDirectory));
  }

  // ---- Facts about particular names ---------------------------------------

  lemma LettersOnly(s: string)
    requires forall i :: 0 <= i < |s| ==> 'a' <= s[i] <= 'z' || 'A' <= s[i] <= 'Z'
    ensures '.' !in s && !HasLineTerminator(s)
  {
  }

  lemma LowerJar(s: string)
    requires s == "jar" || s == "JAR"
    ensures ToLowerAscii(s) == "jar"
  {
    var r := ToLowerAscii(s);
    assert r[0] == 'j' && r[1] == 'a' && r[2] == 'r';
  }

  lemma JarAllowed()
    ensures "jar" in ValidClasspathTypes
  {
    assert ValidClasspathTypes[0] == "jar";
  }

  // ---- Which files are accepted -------------------------------------------

  /** Every allowed type starts with 'j', 'b' or 'e'. */
  lemma AllowedTypesFirstLetter(t: string)
    requires t in ValidClasspathTypes
    ensures t[0] == 'j' || t[0] == 'b' || t[0] == 'e'
  {
  }

  /** No allowed type spans two lines (kept apart: inlined, it makes the
      proof below much more expensive). */
  lemma AllowedTypesAreOneLine(t: string)
    requires t in ValidClasspathTypes
    ensures !HasLineTerminator(t)
  {
  }

  /** A file is accepted exactly when it is a directory, or it is named on one
      line and its lower-cased extension is in the allow-list. */
  lemma {:induction false} ValidClasspathElementIff(f: File)
    ensures IsValidClasspathElement(f) <==>
      f.isDirectory || (!HasLineTerminator(f.name) && ToLowerAscii(AfterLastDot(f.name)) in ValidClasspathTypes)
  {
    if HasLineTerminator(f.name) {
      var s := StripThroughLastDot(f.name);
      StripKeepsLineTerminator(f.name);
      var i :| 0 <= i < |s| && IsLineTerminator(s[i]);
      assert ToLowerAscii(s)[i] == s[i];
      if ClasspathType(f) in ValidClasspathTypes {
        AllowedTypesAreOneLine(ClasspathType(f));
        assert false;
      }
    } else {
      TypeOfOneLineName(f);
    }
  }

  /** A directory is accepted whatever its name. */
  lemma DirectoryAccepted(f: File)
    requires f.isDirectory
    ensures IsValidClasspathElement(f)
  {
  }

  /** A plain file "p.ext" is accepted exactly when "p" is on one line and
      the lower-cased "ext" (free of dots) is one of the allowed types. */
  lemma ExtensionDecides(p: string, ext: string)
    requires '.' !in ext && !HasLineTerminator(ext)
    ensures IsValidClasspathElement(File(p + "." + ext, false)) <==>
      !HasLineTerminator(p) && ToLowerAscii(ext) in ValidClasspathTypes
  {
    ValidClasspathElementIff(File(p + "." + ext, false));
    ExtensionOfDottedName(p, ext);
    OneLineDotted(p, ext);
  }

  /** "p.ext" is on one line exactly when "p" is, given that "ext" is. */
  lemma OneLineDotted(p: string, ext: string)
    requires !HasLineTerminator(ext)
    ensures HasLineTerminator(p + "." + ext) <==> HasLineTerminator(p)
  {
    assert !HasLineTerminator(".") by {
      assert !IsLineTerminator("."[0]);
    }
    OneLineConcat(p, ".");
    OneLineConcat(p + ".", ext);
  }

  lemma OneLineConcat(a: string, b: string)
    ensures HasLineTerminator(a + b) <==> HasLineTerminator(a) || HasLineTerminator(b)
  {
    var s := a + b;
    if HasLineTerminator(s) {
      var i :| 0 <= i < |s| && IsLineTerminator(s[i]);
      if i < |a| {
        assert a[i] == s[i];
      } else {
        assert b[i - |a|] == s[i];
      }
    }
    if HasLineTerminator(a) {
      var i :| 0 <= i < |a| && IsLineTerminator(a[i]);
      assert s[i] == a[i];
    }
    if HasLineTerminator(b) {
      var i :| 0 <= i < |b| && IsLineTerminator(b[i]);
      assert s[|a| + i] == b[i];
    }
  }

  /** A plain file whose name ends in ".pom" is never accepted. */
  lemma PomNeverAccepted(p: string)
    ensures !IsValidClasspathElement(File(p + ".pom", false))
  {
    var ext := "pom";
    LettersOnly(ext);
    assert p + ".pom" == p + "." + ext;
    ExtensionDecides(p, ext);
    assert ToLowerAscii(ext)[0] == 'p';
    if ToLowerAscii(ext) in ValidClasspathTypes {
      AllowedTypesFirstLetter(ToLowerAscii(ext));
    }
  }

  // ---- The filtered classpath ----------------------------------------------

  /** The kept entries appear in the input's order. */
  lemma {:induction false} ClasspathJarsSubsequence(files: seq<File>)
    ensures IsSubsequence(GetClasspathJars(files), files)
  {
    if files != [] {
      ClasspathJarsSubsequence(files[1..]);
      var rest := GetClasspathJars(files[1..]);
      if IsValidClasspathElement(files[0]) {
        assert GetClasspathJars(files) == [files[0]] + rest;
        assert ([files[0]] + rest)[1..] == rest;
      } else {
        assert GetClasspathJars(files) == rest;
      }
    }
  }

  /** Every accepted entry is kept as often as it occurs; no other entry is kept. */
  lemma {:induction false} ClasspathJarsMultiplicity(files: seq<File>)
    ensures forall f ::
              multiset(GetClasspathJars(files))[f] == (if IsValidClasspathElement(f) then multiset(files)[f] else 0)
  {
    if files != [] {
      ClasspathJarsMultiplicity(files[1..]);
      assert files == [files[0]] + files[1..];
      assert multiset(files) == multiset([files[0]]) + multiset(files[1..]);
    }
  }

  /** A plain file "p.jar" with a one-line "p" is accepted, and so, case
      being ignored, is "p.JAR" (for instance "Lib.JAR"). */
  lemma JarAccepted(p: string, ext: string)
    requires !HasLineTerminator(p)
    requires ext == "jar" || ext == "JAR"
    ensures IsValidClasspathElement(File(p + "." + ext, false))
  {
    LettersOnly(ext);
    ExtensionDecides(p, ext);
    LowerJar(ext);
    JarAllowed();
  }

  /** The scenario "lib.jar", "notes.pom" and a directory "build/",
      for any one-line base names: the ".pom" entry alone is dropped. */
  lemma ClasspathExample(lib: string, notes: string, build: string)
    requires !HasLineTerminator(lib)
    ensures GetClasspathJars([File(lib + ".jar", false), File(notes + ".pom", false), File(build, true)])
      == [File(lib + ".jar", false), File(build, true)]
  {
    var jar, pom, dir := File(lib + ".jar", false), File(notes + ".pom", false), File(build, true);
    assert lib + ".jar" == lib + "." + "jar";
    JarAccepted(lib, "jar");
    PomNeverAccepted(notes);
    var files := [jar, pom, dir];
    assert files[1..] == [pom, dir];
    assert files[1..][1..] == [dir];
    assert files[1..][1..][1..] == [];
    assert GetClasspathJars([dir]) == [dir] by {
      assert [dir][1..] == [];
    }
    assert GetClasspathJars([pom, dir]) == [dir];
  }
}
