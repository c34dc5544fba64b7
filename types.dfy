/**
 * Values shared by the bundler's model: results and errors, the abstract
 * syntax of a module (its call sites), module records, the host the
 * compiler runs against (file system, path functions, parser, loaders),
 * and the plugin/hook vocabulary.
 */
module Types {

  datatype Option<T> = None | Some(value: T)

  /** The failures the bundler can raise. None of them is caught: each one
      aborts the whole run. */
  datatype Error =
    | ModuleReadError(path: string)     // readFileSync on a path with no file
    | MissingUse(path: string)          // a matching rule with no `loader` and no `use` (a TypeError)
    | ParseError(path: string)          // the parser rejects the loaded code
    | BadRequireArgument(path: string)  // require(...) without a string literal first argument (a TypeError)
    | ReferenceError(name: string)      // tryExtensions' message names an undefined variable
    | NotAFunction(id: string)          // the bundle's shim asked for an id the registry lacks
    | StackOverflow                     // recursion deeper than the engine's stack

  datatype Result<T> = Ok(value: T) | Err(error: Error)

  /** A call expression of a module, in traversal order: the callee's
      identifier name ("" when the callee is not a plain identifier) and the
      value of its first argument when that is a string literal. */
  datatype Call = Call(callee: string, arg: Option<string>)

  /** The name of the load function the bundle's runtime defines. */
  const WebpackRequire: string := "__webpack_require__"

  /** A module record: its id, the ids it still had to build when it was
      traversed (an insertion-ordered set), the entry names that reach it
      (a growing list) and its rewritten source. */
  datatype ModuleRecord = ModuleRecord(id: string, dependencies: seq<string>, name: seq<string>, source: string)

  /** Everything the compiler consults but does not define: the file system
      (file contents by path, and the paths that exist), the working
      directory, Node's path functions, the parser and printer, and the
      loader modules by name. */
  datatype Host = Host(
    files: map<string, string>,
    existing: set<string>,
    cwd: string,
    isAbsolute: string -> bool,
    join: (string, string) -> string,
    relative: (string, string) -> string,
    dirname: string -> string,
    parse: string -> Option<seq<Call>>,
    generate: seq<Call> -> string,
    loader: string -> (string -> string))

  /** A module rule: a path test (a regular expression in the
      configuration), and either a single `loader` ("" when absent or falsy)
      or a `use` list. */
  datatype Rule = Rule(test: string -> bool, loader: string, use: Option<seq<string>>)

  /** The `entry` option: one path, or an object from entry names to paths
      (its own keys, in order, with no key twice). */
  datatype EntryOption = Single(path: string) | Named(pairs: seq<(string, string)>)

  /** The `output` option: the directory and the filename pattern. */
  datatype Output = Output(path: string, filename: string)

  /** The options the compiler reads. `context` is "" when it is absent. */
  datatype Options = Options(
    entry: EntryOption,
    context: string,
    rules: seq<Rule>,
    extensions: seq<string>,
    output: Output,
    plugins: PluginsOption)

  /** A chunk: its entry name, the entry's record, and the positions, in the
      compiler's module list, of the records it owns. The chunk shares those
      records with the list, so a name appended to one later shows here. */
  datatype Chunk = Chunk(name: string, entryModule: ModuleRecord, modules: seq<nat>)

  /** The three synchronous hooks of a compiler. */
  datatype Phase = RunHook | EmitHook | DoneHook

  /** One `hooks.<phase>.tap(name, callback)` registration. */
  datatype Tap = Tap(phase: Phase, tapName: string)

  /** A plugin, seen through what its `apply(compiler)` registers. */
  datatype Plugin = Plugin(taps: seq<Tap>)

  /** The configuration's `plugins` value: an array, or anything else. */
  datatype PluginsOption = NotAnArray | PluginArray(list: seq<Plugin>)

  /** Observable events of a run, in order. */
  datatype Event =
    | HookCalled(phase: Phase)
    | TapRan(phase: Phase, tapName: string)
    | Applied(index: nat)
    | Rendered(filename: string)
    | MadeDir(path: string)
    | Wrote(path: string, content: string)

  predicate NoDup<T(==)>(s: seq<T>) {
    forall i, j :: 0 <= i < j < |s| ==> s[i] != s[j]
  }

  function Repeat<T>(x: T, n: nat): (r: seq<T>)
    ensures |r| == n && forall k :: 0 <= k < n ==> r[k] == x
  {
    if n == 0 then [] else [x] + Repeat(x, n - 1)
  }

  lemma {:induction false} RepeatAdd<T>(x: T, m: nat, n: nat, s: seq<T>)
    ensures Repeat(x, m) + (Repeat(x, n) + s) == Repeat(x, m + n) + s
  {
    if m == 0 {
      assert Repeat(x, 0) + (Repeat(x, n) + s) == Repeat(x, n) + s;
    } else {
      RepeatAdd(x, m - 1, n, s);
      assert Repeat(x, m) + (Repeat(x, n) + s) == [x] + (Repeat(x, m - 1) + (Repeat(x, n) + s));
    }
  }

  lemma AppendRepeat<T>(s: seq<T>, x: T, k: nat)
    ensures s + [x] + Repeat(x, k) == s + Repeat(x, k + 1)
  {
    assert Repeat(x, k + 1) == [x] + Repeat(x, k);
  }

  function Count<T(==)>(s: seq<T>, x: T): nat {
    if s == [] then 0 else (if s[0] == x then 1 else 0) + Count(s[1..], x)
  }
}
