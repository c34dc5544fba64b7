/**
 * What one module build does to the compiler's state, as functions: the
 * loader pipeline of `handleLoader`, the call-site visitor and dependency
 * recursion of `handleWebpackCompiler`, and `buildModule`
 * (core/compiler.js). The methods of the Compiler class are proved equal
 * to these, and the lemmas of GraphFacts are about them.
 *
 * `fuel` stands for the depth the JavaScript engine's stack allows: a
 * build nested deeper fails with StackOverflow, which is how an unbounded
 * recursion ends.
 */
module ModuleGraph {
  import opened Types
  import opened Utils

  /** The part of the compiler's state that building modules changes: the
      global module list, the configured extension list (which resolution
      grows) and the two code fields. */
  datatype BuildState = BuildState(
    modules: seq<ModuleRecord>,
    extensions: seq<string>,
    originSourceCode: string,
    moduleCode: string)

  /** What the visitor has produced so far: the calls as rewritten, and the
      dependency ids still to build (an insertion-ordered set). */
  datatype Walked = Walked(calls: seq<Call>, deps: seq<string>)

  /** A step's new state, and its value or the error it throws. */
  datatype Out<T> = Out(st: BuildState, res: Result<T>)

  /** `"./" + path.posix.relative(rootPath, path)`. */
  function ModuleId(host: Host, root: string, path: string): string {
    "./" + host.relative(root, path)
  }

  /** `Array.from(this.modules).map((module) => module.id)`. */
  function Ids(ms: seq<ModuleRecord>): (r: seq<string>)
    ensures |r| == |ms| && forall i :: 0 <= i < |ms| ==> r[i] == ms[i].id
  {
    seq(|ms|, i requires 0 <= i < |ms| => ms[i].id)
  }

  /** Every record whose id is `id` gets `name` pushed onto its names. */
  function PushName(ms: seq<ModuleRecord>, id: string, name: string): (r: seq<ModuleRecord>)
    ensures |r| == |ms|
    ensures forall i :: 0 <= i < |ms| ==>
      r[i] == if ms[i].id == id then ms[i].(name := ms[i].name + [name]) else ms[i]
  {
    seq(|ms|, i requires 0 <= i < |ms| => if ms[i].id == id then ms[i].(name := ms[i].name + [name]) else ms[i])
  }

  // ----------------------------------------------------------- handleLoader

  /** The loaders a rule adds when its test accepts the path: its `loader`,
      or else its whole `use` list; without either the spread throws. */
  function Contribution(r: Rule, path: string): Result<seq<string>> {
    if !r.test(path) then Ok([])
    else if r.loader != "" then Ok([r.loader])
    else if r.use.Some? then Ok(r.use.value)
    else Err(MissingUse(path))
  }

  /** The loader names collected over the rules in order. */
  function MatchedLoaders(rules: seq<Rule>, path: string): Result<seq<string>>
  {
    if rules == [] then Ok([])
    else match MatchedLoaders(rules[..|rules| - 1], path)
      case Err(e) => Err(e)
      case Ok(acc) =>
        match Contribution(rules[|rules| - 1], path)
        case Err(e) => Err(e)
        case Ok(more) => Ok(acc + more)
  }

  /** The loaders composed: the last one runs first on `code`, and each
      earlier one runs on the output of the one after it. */
  function ApplyLoaders(loader: string -> (string -> string), names: seq<string>, code: string): string
  {
    if names == [] then code else loader(names[0])(ApplyLoaders(loader, names[1..], code))
  }

  // ------------------------------------------------- handleWebpackCompiler

  /** The visitor on one call site, lines 126-162. A call whose callee is
      not `require` is kept. A `require` call resolves its literal (the
      resolver first unshifts "" onto the extension list), is rewritten to
      `__webpack_require__(id)`, and then either records the id as pending
      or, when a record with that id is already in the module list, pushes
      `name` onto every such record. */
  function VisitCall(host: Host, root: string, name: string, path: string, st: BuildState, w: Walked, c: Call): Out<Walked>
  {
    if c.callee != "require" then Out(st, Ok(w.(calls := w.calls + [c])))
    else if c.arg.None? then Out(st, Err(BadRequireArgument(path)))
    else
      var exts := [""] + st.extensions;
      var st1 := st.(extensions := exts);
      match FirstExisting(host.join(host.dirname(path), c.arg.value), exts, host.existing)
      case None => Out(st1, Err(ReferenceError("originModulePath")))
      case Some(abs) =>
        var id := ModuleId(host, root, abs);
        var calls := w.calls + [Call(WebpackRequire, Some(id))];
        if id !in Ids(st1.modules) then
          Out(st1, Ok(Walked(calls, if id in w.deps then w.deps else w.deps + [id])))
        else
          Out(st1.(modules := PushName(st1.modules, id, name)), Ok(Walked(calls, w.deps)))
  }

  /** The visitor over the call sites in traversal order. */
  function Visit(host: Host, root: string, name: string, path: string, st: BuildState, w: Walked, calls: seq<Call>): Out<Walked>
    decreases |calls|
  {
    if calls == [] then Out(st, Ok(w))
    else
      var o := VisitCall(host, root, name, path, st, w, calls[0]);
      if o.res.Err? then Out(o.st, Err(o.res.error))
      else Visit(host, root, name, path, o.st, o.res.value, calls[1..])
  }

  /** buildModule, lines 77-90: read, run the loaders, then compile. */
  function Build(host: Host, root: string, rules: seq<Rule>, name: string, path: string, st: BuildState, fuel: nat): Out<ModuleRecord>
    decreases fuel, 0, 0
  {
    if fuel == 0 then Out(st, Err(StackOverflow))
    else if path !in host.files then Out(st, Err(ModuleReadError(path)))
    else
      var text := host.files[path];
      var st1 := st.(originSourceCode := text, moduleCode := text);
      match MatchedLoaders(rules, path)
      case Err(e) => Out(st1, Err(e))
      case Ok(names) => Compile(host, root, rules, name, path, st1.(moduleCode := ApplyLoaders(host.loader, names, text)), fuel - 1)
  }

  /** handleWebpackCompiler, lines 114-176: the record is made with the
      entry name `name`, the loaded code is parsed and visited, the printed
      calls become its source, and then each pending id is built in turn,
      with the same `name`, and appended to the module list. */
  function Compile(host: Host, root: string, rules: seq<Rule>, name: string, path: string, st: BuildState, depth: nat): Out<ModuleRecord>
    decreases depth, 2, 0
  {
    var id := ModuleId(host, root, path);
    match host.parse(st.moduleCode)
    case None => Out(st, Err(ParseError(path)))
    case Some(calls) =>
      var v := Visit(host, root, name, path, st, Walked([], []), calls);
      if v.res.Err? then Out(v.st, Err(v.res.error))
      else
        var record := ModuleRecord(id, v.res.value.deps, [name], host.generate(v.res.value.calls));
        var d := BuildDeps(host, root, rules, name, v.res.value.deps, v.st, depth);
        Out(d.st, if d.res.Err? then Err(d.res.error) else Ok(record))
  }

  /** The `dependencies.forEach` loop, lines 170-174: the recursive call gets
      the dependency's id as its path. */
  function BuildDeps(host: Host, root: string, rules: seq<Rule>, name: string, deps: seq<string>, st: BuildState, depth: nat): Out<()>
    decreases depth, 1, |deps|
  {
    if deps == [] then Out(st, Ok(()))
    else
      var b := Build(host, root, rules, name, deps[0], st, depth);
      if b.res.Err? then Out(b.st, Err(b.res.error))
      else BuildDeps(host, root, rules, name, deps[1..], b.st.(modules := b.st.modules + [b.res.value]), depth)
  }

  /** buildEntryModule's builds, lines 67-71: each entry in order, with the
      records returned for the entries. */
  function BuildEntries(host: Host, root: string, rules: seq<Rule>, entry: seq<(string, string)>, st: BuildState, fuel: nat): Out<seq<ModuleRecord>>
    decreases |entry|
  {
    if entry == [] then Out(st, Ok([]))
    else
      var b := Build(host, root, rules, entry[0].0, entry[0].1, st, fuel);
      if b.res.Err? then Out(b.st, Err(b.res.error))
      else
        var rest := BuildEntries(host, root, rules, entry[1..], b.st, fuel);
        Out(rest.st, if rest.res.Err? then rest.res else Ok([b.res.value] + rest.res.value))
  }

  /** The chunks buildEntryModule forms, lines 66-71 and 178-188: one per
      entry whose build succeeded, up to the first failure, each owning the
      records that carry its name at the moment it is formed. */
  function EntryChunks(host: Host, root: string, rules: seq<Rule>, entry: seq<(string, string)>, st: BuildState, fuel: nat): seq<Chunk>
    decreases |entry|
  {
    if entry == [] then []
    else
      var b := Build(host, root, rules, entry[0].0, entry[0].1, st, fuel);
      if b.res.Err? then []
      else [Chunk(entry[0].0, b.res.value, Owned(b.st.modules, entry[0].0))]
           + EntryChunks(host, root, rules, entry[1..], b.st, fuel)
  }

  /** The positions below `k` of the records whose names include `name`, in
      order: `Array.from(this.modules).filter(...)` of buildUpChunk. */
  function OwnedBelow(ms: seq<ModuleRecord>, name: string, k: nat): seq<nat>
    requires k <= |ms|
  {
    if k == 0 then []
    else OwnedBelow(ms, name, k - 1) + (if name in ms[k - 1].name then [k - 1] else [])
  }

  /** The positions listed are exactly those below `k` whose record carries
      `name`, in increasing order. */
  lemma {:induction false} OwnedBelowSpec(ms: seq<ModuleRecord>, name: string, k: nat)
    requires k <= |ms|
    ensures var r := OwnedBelow(ms, name, k);
      && (forall i :: i in r ==> i < k)
      && (forall i :: 0 <= i < k ==> (i in r <==> name in ms[i].name))
      && (forall a, b :: 0 <= a < b < |r| ==> r[a] < r[b])
  {
    if k > 0 {
      OwnedBelowSpec(ms, name, k - 1);
      var below := OwnedBelow(ms, name, k - 1);
      assert forall a :: 0 <= a < |below| ==> below[a] in below;
    }
  }

  function Owned(ms: seq<ModuleRecord>, name: string): seq<nat> {
    OwnedBelow(ms, name, |ms|)
  }
}
