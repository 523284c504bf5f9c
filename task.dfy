/** The mutable state of EnunciateTask that the model covers: the extra
    javac arguments and the export registrations, and the hand-off of the
    compiler arguments to Enunciate. */
module Task {
  import opened Files
  import opened CompilerArgs

  /** The mutable list `Enunciate.getCompilerArgs()` hands out; the task only
      appends to it with `List.addAll`. */
  class CompilerArgList {
    var items: seq<string>

    constructor (initial: seq<string>)
      ensures items == initial
    {
      items := initial;
    }

    method AddAll(xs: seq<string>)
      modifies this
      ensures items == old(items) + xs
    {
      items := items + xs;
    }
  }

  /** Registering the calls of `export(id, destination)` in order, starting from `exports`. */
  function ApplyExports(exports: map<string, Path>, calls: seq<(string, Path)>): (r: map<string, Path>)
    ensures r.Keys == exports.Keys + set c | c in calls :: c.0
  {
    if calls == [] then exports
    else
      var last := calls[|calls| - 1];
      ApplyExports(exports, calls[..|calls| - 1])[last.0 := last.1]
  }

  class EnunciateTask {
    /** `extraJavacArgs`: user-supplied javac arguments. */
    var extraJavacArgs: seq<string>
    /** `exports`: export id to destination directory. */
    var exports: map<string, Path>

    /** Both properties start out empty. */
    constructor ()
      ensures extraJavacArgs == [] && exports == map[]
    {
      extraJavacArgs := [];
      exports := map[];
    }

    /** `setExtraJavacArgs`: replaces the extra arguments. */
    method SetExtraJavacArgs(args: seq<string>)
      modifies this
      ensures extraJavacArgs == args && exports == old(exports)
    {
      extraJavacArgs := args;
    }

    /** `export`: `destination` is now the one registered for `id`, replacing
        any earlier one; every other id keeps its entry. */
    method Export(id: string, destination: Path)
      modifies this
      ensures exports == old(exports)[id := destination]
      ensures id in exports && exports[id] == destination
      ensures forall other :: other != id ==> (other in exports <==> other in old(exports))
      ensures forall other :: other != id && other in exports ==> exports[other] == old(exports)[other]
      ensures extraJavacArgs == old(extraJavacArgs)
    {
      exports := exports[id := destination];
    }

    /** Lines 242-243 of `configureAndInvokeEnunciate`: the built arguments,
        then the extra arguments, are appended to Enunciate's list. */
    method ConfigureCompilerArgs(compilerArgs: CompilerArgList, sourceCompatibility: string,
                                 targetCompatibility: string, javaCompilers: seq<CompileOptions>,
                                 defaultCharset: string)
      modifies compilerArgs
      ensures compilerArgs.items == old(compilerArgs.items)
        + CompilerArgsFor(sourceCompatibility, targetCompatibility, javaCompilers, defaultCharset)
        + extraJavacArgs
    {
      var built := BuildCompilerArgs(sourceCompatibility, targetCompatibility, javaCompilers, defaultCharset);
      compilerArgs.AddAll(built);
      compilerArgs.AddAll(extraJavacArgs);
    }
  }

  /** A build script's sequence of `export` calls on one task: the task ends
      up holding `ApplyExports` of the calls. */
  method ExportAll(task: EnunciateTask, calls: seq<(string, Path)>)
    modifies task
    ensures task.exports == ApplyExports(old(task.exports), calls)
    ensures task.extraJavacArgs == old(task.extraJavacArgs)
  {
    var i := 0;
    while i < |calls|
      invariant 0 <= i <= |calls|
      invariant task.exports == ApplyExports(old(task.exports), calls[..i])
      invariant task.extraJavacArgs == old(task.extraJavacArgs)
    {
      assert calls[..i + 1][..i] == calls[..i];
      task.Export(calls[i].0, calls[i].1);
      i := i + 1;
    }
    assert calls[..|calls|] == calls;
  }

  /** After a sequence of `export` calls, an id holds the destination of
      the last call that names it. */
  lemma {:induction false} ExportsLastWriteWins(exports: map<string, Path>, calls: seq<(string, Path)>, i: nat)
    requires i < |calls|
    requires forall j :: i < j < |calls| ==> calls[j].0 != calls[i].0
    ensures var r := ApplyExports(exports, calls);
      calls[i].0 in r && r[calls[i].0] == calls[i].1
  {
    if i < |calls| - 1 {
      ExportsLastWriteWins(exports, calls[..|calls| - 1], i);
    }
  }

  /** An id no call names keeps whatever entry it had. */
  lemma {:induction false} ExportsUntouched(exports: map<string, Path>, calls: seq<(string, Path)>, id: string)
    requires forall j :: 0 <= j < |calls| ==> calls[j].0 != id
    ensures var r := ApplyExports(exports, calls);
      (id in r <==> id in exports) && (id in exports ==> r[id] == exports[id])
  {
    if calls != [] {
      ExportsUntouched(exports, calls[..|calls| - 1], id);
    }
  }

  /** export("a", dirA) then export("a", dirB) leaves dirB registered for "a". */
  lemma ExportTwice(exports: map<string, Path>, id: string, first: Path, second: Path)
    ensures var r := ApplyExports(exports, [(id, first), (id, second)]);
      id in r && r[id] == second
  {
    ExportsLastWriteWins(exports, [(id, first), (id, second)], 1);
  }
}
