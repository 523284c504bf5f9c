# enunciate-gradle task helpers, in Dafny

This project models the deterministic helpers of the Gradle task
`EnunciateTask`, which hands a project's Java sources, classpath and javac
arguments to the Enunciate generator:

- the **classpath filter** (`isValidClasspathElement`, `getClasspathJars`):
  a file's *type* is its name lower-cased after `replaceFirst(".*[.]", "")`,
  which removes everything through the last `.` of the first line that holds
  a `.` (for a one-line name: through its last `.`; see below); a file is kept when it is a
  directory or its type is one of `jar`, `bundle`, `eclipse-plugin`, `ejb`,
  `ejb-client`, and the filter keeps exactly those files, in order;
- the **compiler arguments** (`buildCompilerArgs`,
  `getDefaultOrCompilerEncoding`, and the two `addAll` calls of
  `configureAndInvokeEnunciate`): `-source S -target T -encoding E`, then
  `-bootclasspath P` when the first JavaCompile task has a boot classpath,
  then the user's extra javac arguments;
- the **export registrations** (`export`): a map from export id to
  destination directory (held as its full path, `Files.Path`), last write
  wins.

Files: `classpath.dfy` (modules `Files` and `Classpath`), `compiler_args.dfy`
(module `CompilerArgs`), `task.dfy` (module `Task`: the classes
`EnunciateTask` and `CompilerArgList`).

The regular expression is modelled exactly, including that Java's `.` does
not match a line terminator (`\n`, `\r`, U+0085, U+2028, U+2029): the
leftmost match starts at the first line holding a `.` and ends at that
line's last `.`. `Classpath.StripOneLine` proves that on a one-line name this
is "everything after the last `.`, or the whole name when there is none",
and `Classpath.ValidClasspathElementIff` shows that a plain file whose name
holds a line terminator is never accepted, so the `.pom` guarantee holds for
every name.

`Charset.defaultCharset().name()` is a parameter. The JavaCompile tasks of the
project are given as the sequence of their options in iteration order, and a
file's `isDirectory()` is a field of `Files.File`.

## Model

| member | source | states |
|---|---|---|
| `Classpath.StripThroughLastDot` | src/main/java/com/webcohesion/enunciate/gradle/EnunciateTask.java:283 | `replaceFirst(".*[.]", "")`: deletes from the start of the first line holding a `.` through that line's last `.`; a name with no `.` is returned unchanged, and a name with one always gets shorter |
| `Classpath.ToLowerAscii` | src/main/java/com/webcohesion/enunciate/gradle/EnunciateTask.java:283 | `toLowerCase()` on ASCII letters: same length, every `A`-`Z` lowered, every other character unchanged, no ASCII upper-case letter left |
| `Classpath.ClasspathType` | src/main/java/com/webcohesion/enunciate/gradle/EnunciateTask.java:283 | the type is the lower-cased result of the regex replacement; for a name with no `.` it is the whole name lower-cased |
| `Classpath.IsValidClasspathElement` | src/main/java/com/webcohesion/enunciate/gradle/EnunciateTask.java:282-287 | a directory is always accepted; a plain file with no `.` in its name is accepted exactly when its lower-cased name is an allowed type (the full characterization is `ValidClasspathElementIff`) |
| `Classpath.StripOneLine` | src/main/java/com/webcohesion/enunciate/gradle/EnunciateTask.java:283 | on a name without line terminators, `replaceFirst(".*[.]", "")` leaves exactly what follows the last `.`, or the whole name when it has no `.` |
| `Classpath.StripKeepsLineTerminator` | src/main/java/com/webcohesion/enunciate/gradle/EnunciateTask.java:283 | a line terminator in the name is still present after the regex replacement |
| `Classpath.TypeOfOneLineName` | src/main/java/com/webcohesion/enunciate/gradle/EnunciateTask.java:283 | the type of a one-line name is its lower-cased extension |
| `Classpath.TypeOfDotlessName` | src/main/java/com/webcohesion/enunciate/gradle/EnunciateTask.java:283 | a one-line name with no `.` is its own type, lower-cased |
| `Classpath.TypeOfBareJar` | src/main/java/com/webcohesion/enunciate/gradle/EnunciateTask.java:283 | a file named `JAR` has type `jar` |
| `Classpath.ExtensionOfDottedName` | src/main/java/com/webcohesion/enunciate/gradle/EnunciateTask.java:283 | the extension of `p.ext`, with no `.` in `ext`, is `ext` |
| `Classpath.ValidClasspathElementIff` | src/main/java/com/webcohesion/enunciate/gradle/EnunciateTask.java:282-287 | a file is accepted if and only if it is a directory, or its name is on one line and its lower-cased extension is in the allow-list of line 74 |
| `Classpath.DirectoryAccepted` | src/main/java/com/webcohesion/enunciate/gradle/EnunciateTask.java:284 | a directory is accepted whatever its name |
| `Classpath.ExtensionDecides` | src/main/java/com/webcohesion/enunciate/gradle/EnunciateTask.java:282-287 | a plain file `p.ext` is accepted if and only if `p` is on one line and lower-cased `ext` is an allowed type |
| `Classpath.JarAccepted` | src/main/java/com/webcohesion/enunciate/gradle/EnunciateTask.java:283-284 | a plain file `p.jar` with a one-line `p` is accepted, and so, case being ignored, is `p.JAR` (`Lib.JAR`) |
| `Classpath.PomNeverAccepted` | src/main/java/com/webcohesion/enunciate/gradle/EnunciateTask.java:272-284 | a plain file whose name ends in `.pom` is never accepted |
| `Classpath.GetClasspathJars` | src/main/java/com/webcohesion/enunciate/gradle/EnunciateTask.java:274-279 | a file is in the result if and only if it is in the input and accepted; the result is no longer than the input |
| `Classpath.ClasspathJarsSubsequence` | src/main/java/com/webcohesion/enunciate/gradle/EnunciateTask.java:274-279 | the kept files are a subsequence of the input: input order is preserved |
| `Classpath.ClasspathJarsMultiplicity` | src/main/java/com/webcohesion/enunciate/gradle/EnunciateTask.java:274-279 | every accepted file occurs in the result as often as in the input; a rejected one not at all |
| `Classpath.ClasspathExample` | src/main/java/com/webcohesion/enunciate/gradle/EnunciateTask.java:272-279 | `[lib.jar, notes.pom, build/]` filters to `[lib.jar, build/]` |
| `CompilerArgs.FirstCompilerOptions` | src/main/java/com/webcohesion/enunciate/gradle/EnunciateTask.java:290-291 | the options used are those of the first JavaCompile task, and null exactly when there is none |
| `CompilerArgs.DefaultOrCompilerEncoding` | src/main/java/com/webcohesion/enunciate/gradle/EnunciateTask.java:308-311 | the encoding is the compiler's when options exist and set one; otherwise the default charset name |
| `CompilerArgs.HasBootClasspath` | src/main/java/com/webcohesion/enunciate/gradle/EnunciateTask.java:297-299 | the `-bootclasspath` pair is due only when compile options exist, and then exactly when their boot classpath is non-null |
| `CompilerArgs.CompilerArgsFor` | src/main/java/com/webcohesion/enunciate/gradle/EnunciateTask.java:293-305 | the list has 8 elements when a boot classpath is configured and 6 otherwise; it starts with `-source S -target T -encoding E` and ends with `-bootclasspath P` in the first case |
| `CompilerArgs.BuildCompilerArgs` | src/main/java/com/webcohesion/enunciate/gradle/EnunciateTask.java:289-306 | the list built by conditional appends is exactly `CompilerArgsFor` of the inputs |
| `CompilerArgs.InvocationArgs` | src/main/java/com/webcohesion/enunciate/gradle/EnunciateTask.java:242-243 | built-then-extra list: fixed prefix, `-bootclasspath P` at positions 6-7 if and only if a boot classpath is configured, then the extra arguments unchanged and in order |
| `Task.CompilerArgList.AddAll` | src/main/java/com/webcohesion/enunciate/gradle/EnunciateTask.java:242-243 | `addAll` appends the given arguments after the list's current contents |
| `Task.EnunciateTask.ConfigureCompilerArgs` | src/main/java/com/webcohesion/enunciate/gradle/EnunciateTask.java:242-243 | Enunciate's list becomes its old contents, then the built arguments, then the extra javac arguments |
| `Task.EnunciateTask.constructor` | src/main/java/com/webcohesion/enunciate/gradle/EnunciateTask.java:111-112 | the extra arguments and the exports start empty |
| `Task.EnunciateTask.SetExtraJavacArgs` | src/main/java/com/webcohesion/enunciate/gradle/EnunciateTask.java:181-183 | the extra arguments are replaced; the exports are unchanged |
| `Task.EnunciateTask.Export` | src/main/java/com/webcohesion/enunciate/gradle/EnunciateTask.java:158-160 | `id` now maps to `destination`, replacing any earlier one; every other id's entry is unchanged |
| `Task.ExportAll` | src/main/java/com/webcohesion/enunciate/gradle/EnunciateTask.java:158-160 | a sequence of `export` calls on one task leaves its map equal to `ApplyExports` of the calls, and the extra arguments unchanged |
| `Task.ApplyExports` | src/main/java/com/webcohesion/enunciate/gradle/EnunciateTask.java:158-160 | after a sequence of `export` calls the registered ids are the original ones plus every id called |
| `Task.ExportsLastWriteWins` | src/main/java/com/webcohesion/enunciate/gradle/EnunciateTask.java:158-160 | each id holds the destination of the last call naming it |
| `Task.ExportsUntouched` | src/main/java/com/webcohesion/enunciate/gradle/EnunciateTask.java:158-160 | an id no call names keeps its original entry, or stays absent |
| `Task.ExportTwice` | src/main/java/com/webcohesion/enunciate/gradle/EnunciateTask.java:158-160 | `export(a, dirA)` then `export(a, dirB)` leaves `dirB` registered for `a` |

## Left out

- `Classpath.ToLowerAscii`: lower-cases ASCII letters only. Java's `toLowerCase()` uses the default locale and full Unicode. In a Turkish locale `I` becomes a dotless `ı`, so `ECLIPSE-PLUGIN` would not be accepted there; the model does not capture that.
- `run()`: the missing-configuration message, the module class loader built from `fileToUrl`, the context-class-loader swap and restore, `printFoundEnunciateModules` (ServiceLoader) and the wrapping of failures in `IllegalStateException`. These are JVM class-loading state and reflection.
- `configureAndInvokeEnunciate` beyond lines 242-243: the calls into the Enunciate engine (`setBuildDir`, `setSourceFiles`, `setClasspath`, `setSourcepath`, `loadConfiguration`, `loadDiscoveredModules`, the loop of `addExport` calls, `run`). The engine is not part of this repository. The initial contents of `getCompilerArgs()` are therefore left general.
- The `log.debug` and `log.info` calls, and the logging adapter `EnunciateLoggerBridge.java`, which only forwards to Gradle's logger.
- Gradle property plumbing: conventions (`enunciate`, `src/main/enunciate/enunciate.xml`, `compileClasspath`), providers, `dependsOn`, the setters of the build directory name, configuration file name and classpath configuration name, `sourcepath`, and the input/output annotations.
- `include` and `exclude` through `PatternSet`: Gradle's glob matching is not visible here.
- The lookup of the classpath configuration by name and of the JavaCompile tasks: their results are inputs (`files`, `javaCompilers`).
- `FileCollection.getAsPath()`: the boot classpath is given as its path string.
- The earlier deny-only-`.pom` classpath policy is not in this version of the source; the allow-list of line 74 is modelled.
