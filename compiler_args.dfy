/** The javac arguments EnunciateTask derives from the project's Java
    compile settings (`buildCompilerArgs`, `getDefaultOrCompilerEncoding`). */
module CompilerArgs {
  import opened Files

  /** What the task reads of a JavaCompile task's CompileOptions. A getter
      that returns null is None; the bootstrap classpath is held as the path
      string `FileCollection.getAsPath()` gives for it. */
  datatype CompileOptions = CompileOptions(encoding: Option<string>, bootstrapClasspath: Option<string>)

  /** The options of the first JavaCompile task, or null when the project has none. */
  function FirstCompilerOptions(javaCompilers: seq<CompileOptions>): (o: Option<CompileOptions>)
    ensures o.None? <==> javaCompilers == []
    ensures o.Some? ==> o.value == javaCompilers[0]
  {
    if javaCompilers == [] then None else Some(javaCompilers[0])
  }

  /** `getDefaultOrCompilerEncoding`: the compiler's own encoding when it has
      one, otherwise the name of the platform's default charset. */
  function DefaultOrCompilerEncoding(compileOptions: Option<CompileOptions>, defaultCharset: string): (e: string)
    ensures compileOptions.Some? && compileOptions.value.encoding.Some? ==> e == compileOptions.value.encoding.value
    ensures compileOptions.None? || compileOptions.value.encoding.None? ==> e == defaultCharset
  {
    match compileOptions
    case None => defaultCharset
    case Some(options) =>
      match options.encoding
      case None => defaultCharset
      case Some(encoding) => encoding
  }

  /** True when the first compile task configures a bootstrap classpath. */
  function HasBootClasspath(o: Option<CompileOptions>): (b: bool)
    ensures b ==> o.Some?
    ensures o.Some? ==> (b <==> o.value.bootstrapClasspath.Some?)
  {
    o.Some? && o.value.bootstrapClasspath.Some?
  }

  /** The argument list `buildCompilerArgs` returns, as a value. */
  function CompilerArgsFor(sourceCompatibility: string, targetCompatibility: string,
                           javaCompilers: seq<CompileOptions>, defaultCharset: string): (args: seq<string>)
    ensures var o := FirstCompilerOptions(javaCompilers);
      && |args| == (if HasBootClasspath(o) then 8 else 6)
      && args[..6] == ["-source", sourceCompatibility, "-target", targetCompatibility,
                       "-encoding", DefaultOrCompilerEncoding(o, defaultCharset)]
      && (HasBootClasspath(o) ==> args[6..] == ["-bootclasspath", o.value.bootstrapClasspath.value])
  {
    var o := FirstCompilerOptions(javaCompilers);
    ["-source", sourceCompatibility, "-target", targetCompatibility,
     "-encoding", DefaultOrCompilerEncoding(o, defaultCharset)]
    + (if HasBootClasspath(o) then ["-bootclasspath", o.value.bootstrapClasspath.value] else [])
  }

  /** `buildCompilerArgs`: start from the fixed six-element prefix and append
      the boot classpath pair when the first compile task has one. */
  method BuildCompilerArgs(sourceCompatibility: string, targetCompatibility: string,
                           javaCompilers: seq<CompileOptions>, defaultCharset: string)
    returns (args: seq<string>)
    ensures args == CompilerArgsFor(sourceCompatibility, targetCompatibility, javaCompilers, defaultCharset)
  {
    var firstCompilerOptions := if |javaCompilers| == 0 then None else Some(javaCompilers[0]);
    args := ["-source", sourceCompatibility, "-target", targetCompatibility,
             "-encoding", DefaultOrCompilerEncoding(firstCompilerOptions, defaultCharset)];
    if firstCompilerOptions.Some? {
      var bootClasspath := firstCompilerOptions.value.bootstrapClasspath;
      if bootClasspath.Some? {
        args := args + ["-bootclasspath"];
        args := args + [bootClasspath.value];
      }
    }
  }

  /** The list Enunciate receives is the built list followed by the user's
      extra arguments: it starts with the fixed prefix, holds the
      "-bootclasspath" pair exactly when a boot classpath is configured, and
      ends with the extra arguments unchanged and in order. */
  lemma InvocationArgs(sourceCompatibility: string, targetCompatibility: string,
                       javaCompilers: seq<CompileOptions>, defaultCharset: string, extra: seq<string>)
    ensures var o := FirstCompilerOptions(javaCompilers);
      var all := CompilerArgsFor(sourceCompatibility, targetCompatibility, javaCompilers, defaultCharset) + extra;
      var n := if HasBootClasspath(o) then 8 else 6;
      && |all| == n + |extra|
      && all[..6] == ["-source", sourceCompatibility, "-target", targetCompatibility,
                      "-encoding", DefaultOrCompilerEncoding(o, defaultCharset)]
      && (HasBootClasspath(o) <==> n == 8 && all[6] == "-bootclasspath")
      && (HasBootClasspath(o) ==> all[7] == o.value.bootstrapClasspath.value)
      && all[n..] == extra
  {
    var o := FirstCompilerOptions(javaCompilers);
    var built := CompilerArgsFor(sourceCompatibility, targetCompatibility, javaCompilers, defaultCharset);
    assert (built + extra)[..6] == built[..6];
    assert (built + extra)[|built|..] == extra;
    if HasBootClasspath(o) {
      assert (built + extra)[6] == built[6];
      assert (built + extra)[7] == built[7];
    }
  }
}
