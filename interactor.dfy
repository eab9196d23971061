/**
 * ev3sim.simulation.interactor: the default interactor hooks and
 * fromOptions, which turns an options map into the class to construct.
 *
 * The YAML files fromOptions may load are given as a map from file name to
 * the options it holds, and the import of the class is left to the caller:
 * a successful result names the module, the class and the constructor
 * arguments. Option values are simplified to strings.
 */
module Interactor {
  import opened Wrappers

  /** The entries of an options map that fromOptions looks at; None = key absent. */
  datatype Options = Options(
    filename: Option<string>,
    classPath: Option<string>,
    args: Option<seq<string>>,
    kwargs: Option<map<string, string>>)

  /** What fromOptions instantiates: klass(*args, **kwargs) with klass = module.class. */
  datatype Construction = Construction(
    moduleName: string,
    className: string,
    args: seq<string>,
    kwargs: map<string, string>)

  datatype InteractorError =
    | MissingClassPath                // ValueError: neither 'class_path' nor 'filename'
    | NotEnoughValuesToUnpack         // ValueError: class_path without a '.'
    | FileNotFound(filename: string)  // the referenced file cannot be opened
    | RecursionLimit                  // files referencing files beyond the recursion limit

  /** IInteractor.tick: true would end the script; by default it never does. */
  function DefaultTick(tick: int): (endScript: bool)
    ensures !endScript
  {
    false
  }

  /** Index of the last '.' in s, searching from the end (str.rsplit('.', 1)). */
  function LastDot(s: string): (r: Option<nat>)
    ensures r.None? <==> '.' !in s
    ensures r.Some? ==> r.value < |s| && s[r.value] == '.' && '.' !in s[r.value + 1..]
  {
    if s == [] then None
    else if s[|s| - 1] == '.' then Some(|s| - 1)
    else
      var r := LastDot(s[..|s| - 1]);
      assert s == s[..|s| - 1] + [s[|s| - 1]];
      r
  }

  /**
   * mname, cname = class_path.rsplit('.', 1): the split at the last '.';
   * without a '.' there is only one value to unpack and Python raises.
   */
  function SplitClassPath(path: string): (r: Result<(string, string), InteractorError>)
    ensures r.Err? <==> '.' !in path
    ensures r.Err? ==> r.error == NotEnoughValuesToUnpack
    ensures r.Ok? ==> r.value.0 + "." + r.value.1 == path && '.' !in r.value.1
  {
    match LastDot(path)
    case None => Err(NotEnoughValuesToUnpack)
    case Some(i) =>
      assert path == path[..i] + "." + path[i + 1..];
      Ok((path[..i], path[i + 1..]))
  }

  /**
   * The split is the only one with a dot-free class name: any module m and
   * class c with m + "." + c == path and no '.' in c are the ones returned.
   */
  lemma SplitClassPathUnique(path: string, m: string, c: string)
    requires m + "." + c == path && '.' !in c
    ensures SplitClassPath(path) == Ok((m, c))
  {
    assert path[|m|] == '.';
    var r := SplitClassPath(path);
    var m', c' := r.value.0, r.value.1;
    assert path == m' + "." + c';
    assert forall j :: |m| < j < |path| ==> path[j] != '.' by {
      forall j | |m| < j < |path| ensures path[j] != '.' {
        assert path[j] == c[j - |m| - 1];
      }
    }
    assert forall j :: |m'| < j < |path| ==> path[j] != '.' by {
      forall j | |m'| < j < |path| ensures path[j] != '.' {
        assert path[j] == c'[j - |m'| - 1];
      }
    }
    assert path[|m'|] == '.';
    assert |m| == |m'|;
    assert m == path[..|m|] == m';
    assert c == path[|m| + 1..] == c';
  }

  /**
   * fromOptions: a 'filename' entry wins and the file's options are used in
   * its place; otherwise 'class_path' is required and split at its last '.',
   * and 'args' and 'kwargs' default to empty. `files` stands for the YAML
   * files that can be loaded and `depth` for the interpreter's recursion limit.
   */
  function FromOptions(options: Options, files: map<string, Options>, depth: nat)
    : (r: Result<Construction, InteractorError>)
    ensures options.filename.None? && options.classPath.None? ==> r == Err(MissingClassPath)
    ensures options.filename.None? && options.classPath.Some? ==>
              (r.Ok? <==> '.' in options.classPath.value)
    ensures r.Ok? ==> '.' !in r.value.className
    decreases depth
  {
    match options.filename
    case Some(name) =>
      if name !in files then Err(FileNotFound(name))
      else if depth == 0 then Err(RecursionLimit)
      else FromOptions(files[name], files, depth - 1)
    case None =>
      match options.classPath
      case None => Err(MissingClassPath)
      case Some(path) =>
        match SplitClassPath(path)
        case Err(e) => Err(e)
        case Ok(split) =>
          Ok(Construction(
               split.0, split.1,
               match options.args case Some(a) => a case None => [],
               match options.kwargs case Some(k) => k case None => map[]))
  }

  /**
   * 'filename' takes precedence over 'class_path': the result is whatever the
   * loaded file's options give, whatever else the options hold.
   */
  lemma FilenameTakesPrecedence(options: Options, files: map<string, Options>, depth: nat)
    requires options.filename.Some? && options.filename.value in files && depth > 0
    ensures FromOptions(options, files, depth) == FromOptions(files[options.filename.value], files, depth - 1)
    ensures FromOptions(options, files, depth) ==
            FromOptions(options.(classPath := None, args := None, kwargs := None), files, depth)
  {
  }

  /**
   * Options without 'filename' construct the class their class_path names:
   * module and class rejoin to class_path, and missing args and kwargs are empty.
   */
  lemma DirectConstruction(options: Options, files: map<string, Options>, depth: nat)
    requires options.filename.None? && options.classPath.Some? && '.' in options.classPath.value
    ensures var r := FromOptions(options, files, depth);
            r.Ok? &&
            r.value.moduleName + "." + r.value.className == options.classPath.value &&
            (options.args.None? ==> r.value.args == []) &&
            (options.kwargs.None? ==> r.value.kwargs == map[]) &&
            (options.args.Some? ==> r.value.args == options.args.value) &&
            (options.kwargs.Some? ==> r.value.kwargs == options.kwargs.value)
  {
  }

  /** A file that names itself never yields an interactor: the recursion runs out. */
  lemma {:induction false} SelfReferenceFails(options: Options, files: map<string, Options>, depth: nat)
    requires options.filename.Some? && options.filename.value in files
    requires files[options.filename.value] == options
    ensures FromOptions(options, files, depth) == Err(RecursionLimit)
    decreases depth
  {
    if depth > 0 {
      SelfReferenceFails(options, files, depth - 1);
    }
  }
}
