# A model of the webpack-yk mini bundler

webpack-yk is a small teaching re-implementation of webpack. `webpack(options)`
merges command-line `--key=value` tokens into the configuration, makes a
`Compiler`, and applies the configured plugins to it. `compiler.run()` then
does five things:

- calls the `run` hook;
- resolves the entries (`getEntry`);
- builds every entry module and, recursively, every module it requires
  (`buildModule`, `handleLoader`, `handleWebpackCompiler`);
- forms one chunk per entry (`buildUpChunk`);
- renders one bundle per chunk with the `renderRequire` template and writes
  the bundles out (`creatChunkAssets`), between the `emit` and `done` hooks.

This project models that core in Dafny. It keeps the program's behaviour as
written, quirks included:

- The dedup check looks only at the compiler's `modules` list.
- A dependency's record joins `modules` only after its own build returns.
- Entry records never join `modules`.
- The recursive build gets the dependency's id as its path.
- Every module a build reaches is tagged with the outer entry's name.
- `tryExtensions` unshifts `""` onto the configured extension list on every
  call.

Because of the first two quirks, two modules that require each other recurse
until the stack runs out. The model makes this explicit with a `fuel`
parameter that stands for the stack depth: `GraphFacts.CycleOverflows`
proves the overflow for every depth. `GraphFacts.AcyclicBuildFinishes`
proves that an acyclic graph finishes with enough depth.

Files:

- `types.dfy` (`Types`): errors and results, call sites, module records, the
  host, options, chunks, hooks, plugins and trace events.
- `utils.dfy` (`Utils`): `toUnixPath`, `tryExtensions` and the `renderRequire`
  template (core/utils/index.js).
- `build.dfy` (`ModuleGraph`): what one build does, as functions: the loader
  pipeline, the call-site visitor with its rewrite and dedup rule, the
  recursion, the entry loop and the chunk filter.
- `graph.dfy` (`GraphFacts`): lemmas about those functions. They cover loader
  order, rewriting, dedup, entry-name tagging, chunk ownership, termination
  on acyclic graphs, and what happens on a cycle, a diamond and a shared
  subtree.
- `compiler.dfy` (`Compilation`): the `Compiler` class. Its methods update its
  fields in place, as core/compiler.js does, and each is proved to leave the
  state that the `ModuleGraph` functions, asset naming (`Emit`) and the
  event trace (`AssetTrace`) describe.
- `runtime.dfy` (`Runtime`): the `__webpack_require__` shim of the emitted
  bundle, at the level of ids, the module cache and factory calls.
- `webpack.dfy` (`Webpack`): `_mergeOptions` (the split on `=`, the reduce
  over argv, the spread merge) and `_loaderPlugin`.

The file system, Node's path functions, the Babel parser and printer, and the
loader modules are all fields of a `Host` value passed in. The parser yields
a module's call sites: each has a callee name and an optional string-literal
argument. The printer is an uninterpreted function of the rewritten calls.

## Model

| member | source | states |
|---|---|---|
| Utils.ReplaceBackslashes | core/utils/index.js:9 | The result has the input's length and no backslash: every `\` becomes `/` and every other character is kept. |
| Utils.ToUnixPath | core/utils/index.js:7-10 | A non-string argument gives `""`. A string gives a string of the same length with no backslash, each `\` turned into `/`. |
| Utils.ReplaceBackslashesFixes | core/utils/index.js:9 | A path with no backslash comes back unchanged. |
| Utils.ToUnixPathIdempotent | core/utils/index.js:7-10 | Normalising twice gives the same result as normalising once. |
| Utils.FirstExisting | core/utils/index.js:21-24 | The candidates are tried in list order. The result is `modulePath + exts[k]` for the first `k` whose candidate exists, and None exactly when no candidate exists. |
| Utils.TryExtensions | core/utils/index.js:19-30 | The caller's list becomes `[""] + extensions` on every call. The call succeeds exactly when some candidate over that list exists, and returns the first one. Otherwise it throws a ReferenceError, because the message names an undeclared variable. |
| Utils.ExactPathWins | core/utils/index.js:20-24 | An existing exact path is returned before any suffixed candidate. |
| Utils.LeadingEmptiesHarmless | core/utils/index.js:20 | The `""`s that earlier calls left at the head of the list do not change what a later call resolves to. |
| Utils.RegistryInOrder | core/utils/index.js:35-39 | The registry lists one entry per chunk module, in chunk order, joined by `,`. The registry text of the first i+1 modules is the first i modules' text, a comma (none when i is 0), and module i's entry, and it is a prefix of the whole registry. |
| Utils.RenderIgnoresNames | core/utils/index.js:32-58 | A bundle depends only on the modules' ids and sources, so names pushed onto records later do not change it. |
| Utils.RegistryTextIgnoresNames | core/utils/index.js:36-38 | The registry text depends only on each module's id and `_source`. |
| ModuleGraph.OwnedBelowSpec | core/compiler.js:183-185 | The chunk filter lists exactly the positions whose record's names include the entry name, in increasing order. |
| GraphFacts.MatchedConcat | core/compiler.js:95-105 | Matching over two runs of rules concatenates their loaders in rule order. The first failing rule decides the error. |
| GraphFacts.NoMatchNoLoaders | core/compiler.js:95-111 | When no rule's test matches, no loader is collected and the code is unchanged. |
| GraphFacts.ApplyConcat | core/compiler.js:107-111 | Loaders run last to first: running `a + b` runs `b`, then `a` on its output. |
| GraphFacts.MatchedLoadersError | core/compiler.js:99-103 | Loader matching fails only on a matching rule with neither `loader` nor `use`, where the spread throws. |
| GraphFacts.RewriteAllSpec | core/compiler.js:129-147 | Rewriting a module's calls succeeds exactly when every call rewrites. Each call is then rewritten in place. |
| GraphFacts.RewriteStable | core/compiler.js:136-141 | A `""` at the head of the extension list does not change how a call resolves. |
| GraphFacts.RewriteAllStable | core/compiler.js:136-141 | The same holds for a whole list of calls. |
| GraphFacts.RequireIdsStable | core/compiler.js:136-144 | The same holds for the ids the `require` calls resolve to. |
| GraphFacts.VisitCallRewrites | core/compiler.js:129-147 | One call site: the step succeeds exactly when the call rewrites. It appends the rewritten call, and a `require` puts one `""` at the head of the extension list. |
| GraphFacts.VisitRewrites | core/compiler.js:125-164 | The traversal succeeds exactly when every call rewrites. A `require(x)` becomes `__webpack_require__(id of the resolved x)`, and every other call is kept. The calls come out in order, and the extension list gains one `""` per `require`. |
| GraphFacts.VisitCallDedup | core/compiler.js:149-161 | One `require`: an id already carried by a record in `modules` pushes the entry name onto every such record. Any other id becomes pending, once. |
| GraphFacts.VisitDedup | core/compiler.js:149-161 | Over a module's calls: the pending set is the old set plus exactly the required ids that have no record, each once. Every existing record gains the entry name once per call that resolves to its id, and nothing else changes. |
| GraphFacts.VisitExtends | core/compiler.js:156-160 | The traversal only pushes the entry's name onto existing records. |
| GraphFacts.BuildExtends | core/compiler.js:114-176 | A build for entry `name` leaves old records with the same id, dependencies and source, gaining only `name`. Every name on a record it adds is `name`: a record appended early can gain `name` again from a later require of its id. The record it returns has id `"./" + relative(root, path)` and names `[name]`. |
| GraphFacts.CompileExtends | core/compiler.js:114-176 | The same holds for handleWebpackCompiler. |
| GraphFacts.BuildDepsExtends | core/compiler.js:170-174 | The dependency loop relates old and new records as BuildExtends says, under the outer entry's name. It does not by itself say that anything was built. |
| GraphFacts.BuildDepsAppends | core/compiler.js:170-174 | When the dependency loop succeeds, every pending id has a record appended by the loop whose id is that dependency's module id. |
| GraphFacts.OwnedStable | core/compiler.js:178-188 | Builds for one entry never change which records another entry owns. |
| GraphFacts.OwnedBelowStable | core/compiler.js:183-185 | The same holds for the filter below any position. |
| GraphFacts.NameKept | core/compiler.js:156-174 | After builds for `name`, a record carries another entry's name exactly when it already did. |
| GraphFacts.EntriesKeepOwned | core/compiler.js:67-71 | Building other entries leaves an entry's owned records unchanged. |
| GraphFacts.ChunksExact | core/compiler.js:66-188 | There is one chunk per entry, in entry order, up to the first failing build. Each chunk's entry record is that entry's record, with the entry's id and its name alone. With distinct entry names, each chunk owns exactly the records of the final list that carry its name. |
| GraphFacts.VisitGrown | core/utils/index.js:20 | Resolution only prepends `""` to the extension list, including on the call that fails. |
| GraphFacts.BuildBounded | core/compiler.js:77-174 | If every chain of requires from the path is shorter than the stack depth, the build never overflows. |
| GraphFacts.DepsBounded | core/compiler.js:170-174 | The same holds for the dependency loop. |
| GraphFacts.AcyclicBuildFinishes | core/compiler.js:170-174 | On a graph that some rank strictly decreases along, a build with depth above the path's rank finishes. It either succeeds or fails with an error other than a stack overflow. |
| GraphFacts.GraphVisitCall | core/compiler.js:129-161 | In a graph host, `require(other)` becomes `__webpack_require__(other)`. It either adds `other` to the pending set or pushes the name onto its record, and prepends one `""`. |
| GraphFacts.GraphVisitFresh | core/compiler.js:149-153 | Requires of ids with no record become pending in order, with repeats dropped, and leave `modules` untouched. |
| GraphFacts.GraphBuild | core/compiler.js:77-176 | A graph-host module is read and its requires become pending. Each is then built in turn, and the module's record has its path as id. |
| GraphFacts.GraphLeaf | core/compiler.js:114-176 | A module with no requires builds its record and leaves `modules` unchanged. |
| GraphFacts.GraphChain | core/compiler.js:170-174 | A module requiring a leaf appends the leaf's record to `modules` and returns its own record without appending it. |
| GraphFacts.DiamondBuildsTwice | core/compiler.js:149-174 | In a diamond (a requires b and c; b requires c), `c` is built twice. The dedup check runs before c's record exists, so `modules` ends with the ids `[c, b, c]`. |
| GraphFacts.GraphRevisit | core/compiler.js:152-160 | Requiring a module that already has a record pushes the name onto it and builds nothing. |
| GraphFacts.SharedSubtreeUntagged | core/compiler.js:152-185 | Two entries share `m`, and `m` requires `n`. Only `m` gets the second entry's name, so the second chunk leaves `n` out. |
| GraphFacts.CycleOverflows | core/compiler.js:149-174 | Two modules that require each other overflow the stack at every depth. |
| Compilation.NormalizedShape | core/compiler.js:57-63 | Keys and absolute paths are kept, in order. Every other path becomes the unixified join onto the root, with no backslash. |
| Compilation.IndexFrom | core/compiler.js:195 | Returns the first occurrence of the pattern at or after a position, or None when there is none. |
| Compilation.ExpandPlain | core/compiler.js:195 | A replacement without `$` is inserted literally. |
| Compilation.AssetNameShape | core/compiler.js:195 | For a chunk name without `$`, only the first `[name]` in `output.filename` is replaced by the chunk name, and a filename without `[name]` is the same for every chunk. A name with `$` can hold a replacement pattern such as `$&`, which `String.prototype.replace` expands. `AssetName` models that expansion through `Expand`, but this lemma states nothing for such names. |
| Compilation.EmitKeys | core/compiler.js:196-205 | The asset keys are listed once each, keep the earlier keys as a prefix, and are exactly the names of the assets. |
| Compilation.EmitKeyOrder | core/compiler.js:196-205 | The asset keys are the earlier keys followed by the chunks' file names not seen before, each at its first occurrence in chunk order (`FirstNew`, read from the front). This is the order of `Object.keys(this.assets)`, and so of the writes. |
| Compilation.EmitCovers | core/compiler.js:193-197 | Every chunk's file name is an asset. |
| Compilation.EmitLastWins | core/compiler.js:196 | Under a name, the asset is the bundle of the last chunk with that name. |
| Compilation.EmitUntouched | core/compiler.js:196 | An asset that no chunk names keeps its earlier content. |
| Compilation.AssetHookOrder | core/compiler.js:193-212 | Every bundle is rendered before the `emit` hook, every write happens between `emit` and `done`, and no other hook is called. |
| Compilation.Compiler.constructor | core/compiler.js:11-35 | The root is `context`, or else the working directory with unix separators. Every collection starts empty. |
| Compilation.Compiler.CallHook | core/compiler.js:38-212 | Calling a hook records the call, then the callbacks tapped on that phase, in registration order. |
| Compilation.Compiler.GetEntry | core/compiler.js:49-64 | A string entry becomes `main`. Paths are normalised. An entry object is the options' own object, so its updated paths show there too. |
| Compilation.Compiler.HandleLoader | core/compiler.js:92-112 | `moduleCode` becomes the matched loaders applied last to first, or the matching error is returned with the code untouched. |
| Compilation.Compiler.AppendEntryName | core/compiler.js:156-160 | The name is pushed onto every record with the id. |
| Compilation.Compiler.VisitCalls | core/compiler.js:125-164 | The call nodes are rewritten in place and the state changes as `Visit` says. The result is the pending ids or the error. |
| Compilation.Compiler.BuildModule | core/compiler.js:77-90 | The new state and the result are those of `Build`. |
| Compilation.Compiler.HandleWebpackCompiler | core/compiler.js:114-176 | The new state and the result are those of `Compile`. |
| Compilation.Compiler.BuildUpChunk | core/compiler.js:178-188 | Appends the chunk of the entry with the positions the filter selects. |
| Compilation.Compiler.BuildEntryModule | core/compiler.js:66-75 | The state is that of `BuildEntries`. `chunks` and `entries` gain exactly the chunks and entry records of `EntryChunks`. |
| Compilation.Compiler.AddEntry | core/compiler.js:67-70 | One entry: on success, its record joins `entries` and its chunk joins `chunks`. On failure, neither changes. |
| Compilation.Compiler.CreatChunkAssets | core/compiler.js:190-225 | The assets, their keys, `files` (equal to the keys), the trace and the stats are those `Emit` and `AssetTrace` give. |
| Compilation.Compiler.RenderAssets | core/compiler.js:193-197 | The assets are those of `Emit`, and one render event is added per chunk. |
| Compilation.Compiler.WriteAssets | core/compiler.js:206-210 | There is one write per asset key, in key order, to `join(output.path, key)`. |
| Compilation.Compiler.RunBuild | core/compiler.js:40-43 | An entry object ends the run holding the normalised paths, because getEntry rewrites it in place. A string entry, and every other option except the extension list, are unchanged. The entries are the normalised entry option, built and chunked as `BuildEntries` and `EntryChunks` say from the starting state, and `entries` gains the chunks' entry records. The trace gains exactly the run hook's events, because resolving and building make none. |
| Compilation.Compiler.Run | core/compiler.js:38-46 | RunBuild's effects, including the same frame on the options: an entry object ends normalised, and every other option except the extension list is unchanged. On a failed build the run stops there: the trace holds only the run hook, and `assetNames`, `assets` and `files` are unchanged. On success, the assets, their keys and `files` are those of `Emit` over the final records and chunks, the result is the stats of the final state, and the trace is the run hook followed by `AssetTrace`. |
| Compilation.RunAssets | core/compiler.js:38-225 | On a successful run with distinct entry names and no earlier assets, there is one record per entry. The asset keys are the entries' file names, each at its first occurrence in entry order. Every entry has its file, and a file that no later entry also maps to holds the bundle of that entry's record and of the records that carry its name at the end. |
| Runtime.RegistryLastWins | core/utils/index.js:35-39 | The registry has exactly the chunk modules' ids. An id given twice keeps the later source. |
| Runtime.Require | core/utils/index.js:43-52 | Cache entries are never changed. After the call the id is cached, even when it fails, and a returned handle is the id's cached one. |
| Runtime.RequireAll | core/utils/index.js:37-49 | A factory body's requires only grow the cache. When they succeed, every required id is cached. |
| Runtime.RequireValid | core/utils/index.js:43-52 | However requires nest, each factory runs at most once, only ids with a factory run, and distinct ids get distinct cached module records. |
| Runtime.RequireAllValid | core/utils/index.js:43-52 | The same holds for a list of requires. |
| Runtime.RunBundleOnce | core/utils/index.js:32-58 | A whole run calls only registry factories, each at most once. |
| Runtime.FirstRequireFresh | core/utils/index.js:46-51 | The first require of an id caches a fresh module record before its factory runs, so a require that cycles back to the id during the factory gets that record. The call then returns that record's handle. |
| Runtime.RequireTwice | core/utils/index.js:44-45 | After a successful require of an id, a second require returns the same handle and changes nothing. After a failed one, the id is cached, and the second require returns its handle rather than the first result (`MissingFactory`). |
| Runtime.MutualRequireFinishes | core/utils/index.js:43-52 | Two modules that require each other terminate. Each factory runs once, because the inner require is answered from the cache. |
| Runtime.MissingFactory | core/utils/index.js:46-49 | Requiring an id with no factory caches it first and then fails. A later require of it succeeds with the cached record's handle. |
| Webpack.SplitJoin | core/webpack.js:17 | Joining the `split("=")` pieces with `=` gives the token back. |
| Webpack.SplitPiecesPlain | core/webpack.js:17 | No piece contains `=`. |
| Webpack.TokenByFirstSeparator | core/webpack.js:17-21 | A token contributes exactly when it has text before its first `=` and right after it. The value stops at the next `=`, and the key drops its first two characters. |
| Webpack.NoSeparatorIgnored | core/webpack.js:17-18 | A token without `=` contributes nothing. |
| Webpack.SecondSeparatorDrops | core/webpack.js:17-20 | `--mode=a=b` sets `mode` to `a`. |
| Webpack.CollectKeys | core/webpack.js:16-23 | A key is set exactly when some token contributes it. |
| Webpack.CollectLastWins | core/webpack.js:16-23 | A key's value is that of the last token contributing it. |
| Webpack.ShellSkipsFirstTwo | core/webpack.js:16 | The first two argv entries are never parsed. |
| Webpack.MergeOverrides | core/webpack.js:24 | Shell keys override configuration keys. Every other configuration key passes through, and no other key appears. |
| Webpack.ShellPluginsDisable | core/webpack.js:8-29 | A `--plugins=...` token replaces the plugin array with text, so no plugin is applied. |
| Webpack.ApplicationsInOrder | core/webpack.js:30-32 | Each plugin is applied exactly once, in array order. |
| Webpack.LoadPlugins | core/webpack.js:28-34 | For an array: one application per plugin, in order, and the compiler's taps gain each plugin's taps in order. For anything else, nothing changes. |
| Webpack.Webpack | core/webpack.js:3-10 | Returns the merged options and a fresh compiler with the merged plugin list applied. |

## Left out

- The Babel parser, traverse, generator and types are a foreign library. A module's code parses, through `Host.parse`, to its call sites in traversal order, and `Host.generate` prints the rewritten calls. Other AST nodes, and calls nested in arguments beyond that order, are not modelled.
- The file system is a map from paths to texts plus the set of existing paths. A dependency is read back by its id, as the source does. Node would resolve that relative id against the working directory, but here it is looked up as given. `mkdirSync` and `writeFileSync` are trace events, and partial writes are not modelled.
- Node's path functions and `process.cwd()` are fields of the host. `path.join` in `getEntry` and `creatChunkAssets`, and `path.posix.join` in `handleWebpackCompiler`, are all `Host.join`.
- A loader module is an opaque total `string -> string` function found by name. A loader that fails to load or throws is not modelled.
- A rule's `test` regular expression is a predicate on the path. The `lastIndex` state of a global regular expression is not modelled. A falsy `loader` is written `""`.
- Entry objects are sequences of pairs in their own key order, and the asset keys are kept in insertion order. JavaScript lists integer-like keys first, in numeric order, in both `Object.keys` of an entry object and `Object.keys(this.assets)`. That reordering is not modelled, so the write order differs from the model's for integer-like asset names.
- The typed `Options` record always has an `entry` whose paths are strings, and always has `module.rules`, `resolve.extensions` and `output`. In the source, a configuration without `entry` makes `Object.entries(undefined)` throw a TypeError in getEntry. A non-string entry path throws at `path.isAbsolute`. A configuration without one of the other three throws a TypeError at `this.options.module.rules`, at `extensions.unshift("")` or at `output.filename`. Those failures are not modelled. A rule's `use` is a list of loader names. A string-valued `use` such as `"x-loader"` would be spread into single characters by `push(...loader.use)`, and each character then `require`d as a loader; that case is not modelled.
- Collect stores every parsed key in the result map. In JavaScript a `--__proto__=x` token sets the object's prototype rather than adding a key. That case is not modelled.
- `fuel` stands for the engine's stack depth. A build nested deeper fails with StackOverflow. The source has no such counter, so this is how its unbounded recursion ends.
- tapable's `SyncHook` is a list of taps. Calling a hook records the call and one event per tapped callback. What the callbacks themselves do is not modelled.
- The `console.log` diagnostics of `buildEntryModule` are not modelled.
- The callback of `creatChunkAssets` is not modelled: `Run` returns the stats value it would receive.
- The `modules`, `entries` and `chunks` Sets are sequences. The source only adds freshly made objects, so a Set never drops one.
- `assets` starts as a Set that is used as a plain object. It is modelled by its keys in insertion order and a map.
- Compilation.ChunkRecords skips chunk positions outside the module list. None occur, because the filter only yields positions in range.
- Asset names are keys of `this.assets`, a Set used as a plain object. An output file name `size` throws a TypeError there, because the class body is strict code and `Set.prototype.size` has only a getter, and a file name `__proto__` is silently dropped. The model stores both like any other name.
- Registry ids are written between single quotes without escaping. An id containing `'` would break the bundle text. This is kept as written and not analysed.
- The bundle's execution is kept only at the level of the shim: which ids each factory requires (`Runtime.Factories`), the cache, and the order of factory calls. What exports hold, and errors a factory throws other than a missing factory, are not modelled.
- Runtime: a handle stands for the cached module record `{ exports: {} }`, not for the value `__webpack_require__` returns. The shim returns `module.exports` read after the factory has run, or `cacheModule.exports` on a cache hit. A factory that reassigns `module.exports` therefore returns a different value from the one a cyclic require saw while the factory was running, and two ids can return the same exports value. The handles do not capture this.
- Webpack.Webpack: the compiler is constructed from a typed `Options` value passed alongside the merged map. How the merged map's values become that record is not modelled, so shell overrides of keys the compiler reads (such as `context`) are not carried into it. The plugin list it applies is taken from the merged map.
- The graph lemmas of `GraphFacts` from `GraphVisitCall` to `CycleOverflows` are stated for any host that serves a module graph in the way `GraphLike` says. `GraphFacts.GraphHostIsGraphLike` shows that such a host exists.
- The plugins `plugins/plugin-a.js` and `plugins/plugin-b.js` only log, and the driver `core/index.js` only calls `webpack` and `run`. A plugin is modelled by the taps its `apply` registers.
