/**
 * The Compiler class of core/compiler.js. Its methods change the
 * compiler's fields in place, as the source does, and each is proved equal
 * to a function of ModuleGraph or of this module: a build leaves the state
 * Build says, entry assembly leaves the chunks EntryChunks says, and asset
 * creation leaves the assets, the files and the trace of hooks and writes
 * that Emit and AssetTrace say.
 */
module Compilation {
  import opened Types
  import opened Utils
  import opened ModuleGraph
  import opened GraphFacts

  // ----------------------------------------------------------------- hooks

  /** The callbacks tapped on `phase`, in registration order, as the events
      calling the hook runs. */
  function TapEvents(taps: seq<Tap>, phase: Phase): (r: seq<Event>)
    ensures |r| <= |taps|
    ensures forall e :: e in r ==> e.TapRan? && e.phase == phase
  {
    if taps == [] then []
    else
      var last := taps[|taps| - 1];
      TapEvents(taps[..|taps| - 1], phase) + (if last.phase == phase then [TapRan(phase, last.tapName)] else [])
  }

  /** What `hooks.<phase>.call()` does: the call, then its callbacks. */
  function HookEvents(taps: seq<Tap>, phase: Phase): seq<Event> {
    [HookCalled(phase)] + TapEvents(taps, phase)
  }

  // -------------------------------------------------------------- getEntry

  /** The entry object before normalisation: a string becomes `main`. */
  function EntryPairs(e: EntryOption): seq<(string, string)> {
    match e
    case Single(p) => [("main", p)]
    case Named(pairs) => pairs
  }

  /** One entry path as getEntry leaves it. */
  function NormalPath(host: Host, root: string, p: string): string {
    if host.isAbsolute(p) then p else ToUnixPath(Some(host.join(root, p)))
  }

  function Normalized(host: Host, root: string, pairs: seq<(string, string)>): seq<(string, string)> {
    seq(|pairs|, i requires 0 <= i < |pairs| => (pairs[i].0, NormalPath(host, root, pairs[i].1)))
  }

  /** Normalisation keeps every key and every absolute path, in order; any
      other path becomes the unixified join onto the root, which holds no
      backslash. */
  lemma NormalizedShape(host: Host, root: string, pairs: seq<(string, string)>)
    ensures var r := Normalized(host, root, pairs);
      && |r| == |pairs|
      && (forall i :: 0 <= i < |r| ==> r[i].0 == pairs[i].0)
      && (forall i :: 0 <= i < |r| && host.isAbsolute(pairs[i].1) ==> r[i].1 == pairs[i].1)
      && (forall i :: 0 <= i < |r| && !host.isAbsolute(pairs[i].1) ==>
            r[i].1 == ToUnixPath(Some(host.join(root, pairs[i].1))) && '\\' !in r[i].1)
  {
  }

  // ------------------------------------------------------ creatChunkAssets

  /** `pat` occurs in `s` at `j`. */
  predicate OccursAt(s: string, pat: string, j: nat) {
    j + |pat| <= |s| && s[j..j + |pat|] == pat
  }

  /** The first index at or after `from` where `pat` occurs in `s`. */
  function IndexFrom(s: string, pat: string, from: nat): (r: Option<nat>)
    requires from <= |s|
    ensures r.Some? ==> from <= r.value && OccursAt(s, pat, r.value)
    ensures r.Some? ==> forall j :: from <= j < r.value ==> !OccursAt(s, pat, j)
    ensures r.None? ==> forall j :: from <= j ==> !OccursAt(s, pat, j)
    decreases |s| - from
  {
    if from + |pat| > |s| then None
    else if s[from..from + |pat|] == pat then Some(from)
    else IndexFrom(s, pat, from + 1)
  }

  /** The replacement text of `String.prototype.replace` with a string
      pattern: `$$` is a dollar, `$&` the match, `` $` `` the text before it,
      `$'` the text after it; every other `$` stands for itself. */
  function Expand(rep: string, matched: string, before: string, after: string): string
    decreases |rep|
  {
    if rep == [] then []
    else if rep[0] == '$' && |rep| >= 2 && rep[1] in "$&`'" then
      (match rep[1]
       case '$' => "$"
       case '&' => matched
       case '`' => before
       case _ => after)
      + Expand(rep[2..], matched, before, after)
    else [rep[0]] + Expand(rep[1..], matched, before, after)
  }

  /** A name without `$` is inserted as it is. */
  lemma {:induction false} ExpandPlain(rep: string, matched: string, before: string, after: string)
    requires '$' !in rep
    ensures Expand(rep, matched, before, after) == rep
  {
    if rep != [] {
      ExpandPlain(rep[1..], matched, before, after);
    }
  }

  /** `pattern.replace(pat, rep)`: only the first occurrence is replaced. */
  function ReplaceFirst(pattern: string, pat: string, rep: string): string {
    match IndexFrom(pattern, pat, 0)
    case None => pattern
    case Some(i) => pattern[..i] + Expand(rep, pat, pattern[..i], pattern[i + |pat|..]) + pattern[i + |pat|..]
  }

  /** The asset name of a chunk: `output.filename.replace("[name]", name)`. */
  function AssetName(filename: string, name: string): string {
    ReplaceFirst(filename, "[name]", name)
  }

  /** The first `[name]` is replaced by a `$`-free chunk name and everything
      after it, later `[name]`s included, is kept; a filename without
      `[name]` is the same for every chunk. */
  lemma AssetNameShape(filename: string, name: string)
    requires '$' !in name
    ensures IndexFrom(filename, "[name]", 0).None? ==> AssetName(filename, name) == filename
    ensures IndexFrom(filename, "[name]", 0).Some? ==>
      var i := IndexFrom(filename, "[name]", 0).value;
      && OccursAt(filename, "[name]", i)
      && (forall j :: 0 <= j < i ==> !OccursAt(filename, "[name]", j))
      && AssetName(filename, name) == filename[..i] + name + filename[i + 6..]
  {
    match IndexFrom(filename, "[name]", 0)
    case None =>
    case Some(i) => ExpandPlain(name, "[name]", filename[..i], filename[i + 6..]);
  }

  /** The records a chunk owns, in list order. */
  function ChunkRecords(ms: seq<ModuleRecord>, idx: seq<nat>): seq<ModuleRecord> {
    if idx == [] then []
    else (if idx[0] < |ms| then [ms[idx[0]]] else []) + ChunkRecords(ms, idx[1..])
  }

  /** `renderRequire(chunk)`, against the records as they are now. */
  function RenderChunk(ms: seq<ModuleRecord>, c: Chunk): string {
    RenderRequire(c.name, c.entryModule, ChunkRecords(ms, c.modules))
  }

  /** `this.assets[name] = ...` over the chunks in order: a key keeps the
      place of its first assignment and the value of its last. */
  function Emit(filename: string, ms: seq<ModuleRecord>, cs: seq<Chunk>, keys: seq<string>, table: map<string, string>)
    : (seq<string>, map<string, string>)
  {
    if cs == [] then (keys, table)
    else
      var prev := Emit(filename, ms, cs[..|cs| - 1], keys, table);
      var f := AssetName(filename, cs[|cs| - 1].name);
      (if f in prev.1 then prev.0 else prev.0 + [f], prev.1[f := RenderChunk(ms, cs[|cs| - 1])])
  }

  /** One more chunk extends the emitted table and the render events by
      that chunk's bundle. */
  lemma EmitStep(filename: string, ms: seq<ModuleRecord>, cs: seq<Chunk>, j: nat, keys: seq<string>, table: map<string, string>)
    requires j < |cs|
    ensures var prev := Emit(filename, ms, cs[..j], keys, table);
      var f := AssetName(filename, cs[j].name);
      && Emit(filename, ms, cs[..j + 1], keys, table)
         == (if f in prev.1 then prev.0 else prev.0 + [f], prev.1[f := RenderChunk(ms, cs[j])])
      && RenderEvents(filename, cs[..j + 1]) == RenderEvents(filename, cs[..j]) + [Rendered(f)]
  {
    var init := cs[..j + 1];
    assert init[..|init| - 1] == cs[..j] && init[|init| - 1] == cs[j];
    var a := RenderEvents(filename, init);
    var b := RenderEvents(filename, cs[..j]) + [Rendered(AssetName(filename, cs[j].name))];
    assert |a| == |b|;
    forall i | 0 <= i < |a|
      ensures a[i] == b[i]
    {
      if i < j {
        assert init[i] == cs[..j][i];
      }
    }
  }

  /** The asset keys are listed once each, in first-assignment order, and
      are exactly the names of the assets. */
  lemma {:induction false} EmitKeys(filename: string, ms: seq<ModuleRecord>, cs: seq<Chunk>, keys: seq<string>, table: map<string, string>)
    requires NoDup(keys) && forall f :: f in keys <==> f in table
    ensures var e := Emit(filename, ms, cs, keys, table);
      NoDup(e.0) && keys <= e.0 && (forall f :: f in e.0 <==> f in e.1)
  {
    if cs != [] {
      var init := cs[..|cs| - 1];
      EmitKeys(filename, ms, init, keys, table);
      var prev := Emit(filename, ms, init, keys, table);
      var f := AssetName(filename, cs[|cs| - 1].name);
      if f !in prev.1 {
        assert f !in prev.0;
        assert forall i :: 0 <= i < |prev.0| ==> prev.0[i] in prev.0;
      }
    }
  }

  /** The chunks' asset names, in chunk order. */
  function ChunkAssetNames(filename: string, cs: seq<Chunk>): seq<string> {
    if cs == [] then [] else ChunkAssetNames(filename, cs[..|cs| - 1]) + [AssetName(filename, cs[|cs| - 1].name)]
  }

  /** The names of `ns` that are not in `seen`, each at its first
      occurrence, read from the front. */
  function FirstNew(seen: seq<string>, ns: seq<string>): seq<string>
    decreases |ns|
  {
    if ns == [] then []
    else if ns[0] in seen then FirstNew(seen, ns[1..])
    else [ns[0]] + FirstNew(seen + [ns[0]], ns[1..])
  }

  /** A name is listed exactly when it occurs and was not seen before. */
  lemma {:induction false} FirstNewMembers(seen: seq<string>, ns: seq<string>)
    ensures forall x :: x in FirstNew(seen, ns) <==> x in ns && x !in seen
    decreases |ns|
  {
    if ns != [] {
      if ns[0] in seen {
        FirstNewMembers(seen, ns[1..]);
      } else {
        FirstNewMembers(seen + [ns[0]], ns[1..]);
      }
      assert forall x :: x in ns <==> x == ns[0] || x in ns[1..];
    }
  }

  /** Reading one more name at the back lists it when it is new. */
  lemma {:induction false} FirstNewSnoc(seen: seq<string>, ns: seq<string>, x: string)
    ensures FirstNew(seen, ns + [x]) == FirstNew(seen, ns) + (if x in seen || x in ns then [] else [x])
    decreases |ns|
  {
    if ns == [] {
      assert [x][1..] == [];
    } else {
      assert (ns + [x])[0] == ns[0] && (ns + [x])[1..] == ns[1..] + [x];
      assert x in ns <==> x == ns[0] || x in ns[1..];
      if ns[0] in seen {
        FirstNewSnoc(seen, ns[1..], x);
      } else {
        FirstNewSnoc(seen + [ns[0]], ns[1..], x);
      }
    }
  }

  /** The asset keys are the earlier keys followed by the chunks' asset
      names that are new, in the order of their first assignment. */
  lemma {:induction false} EmitKeyOrder(filename: string, ms: seq<ModuleRecord>, cs: seq<Chunk>, keys: seq<string>, table: map<string, string>)
    requires NoDup(keys) && forall f :: f in keys <==> f in table
    ensures Emit(filename, ms, cs, keys, table).0 == keys + FirstNew(keys, ChunkAssetNames(filename, cs))
  {
    if cs == [] {
      assert keys + [] == keys;
    } else {
      var init := cs[..|cs| - 1];
      var ns := ChunkAssetNames(filename, init);
      var f := AssetName(filename, cs[|cs| - 1].name);
      var prev := Emit(filename, ms, init, keys, table);
      EmitKeyOrder(filename, ms, init, keys, table);
      EmitKeys(filename, ms, init, keys, table);
      FirstNewMembers(keys, ns);
      FirstNewSnoc(keys, ns, f);
      assert ChunkAssetNames(filename, cs) == ns + [f];
      EmitKeyStep(filename, ms, cs, keys, table);
      var added := if f in keys || f in ns then [] else [f];
      assert f in prev.1 <==> f in keys || f in ns;
      assert keys + FirstNew(keys, ns) + added == keys + (FirstNew(keys, ns) + added);
    }
  }

  /** One more chunk appends its asset name to the keys when it is new. */
  lemma EmitKeyStep(filename: string, ms: seq<ModuleRecord>, cs: seq<Chunk>, keys: seq<string>, table: map<string, string>)
    requires cs != []
    ensures var prev := Emit(filename, ms, cs[..|cs| - 1], keys, table);
      var f := AssetName(filename, cs[|cs| - 1].name);
      Emit(filename, ms, cs, keys, table).0 == prev.0 + (if f in prev.1 then [] else [f])
  {
  }

  /** One more chunk adds its asset name to the emitted names. */
  lemma EmitNames(filename: string, ms: seq<ModuleRecord>, cs: seq<Chunk>, keys: seq<string>, table: map<string, string>)
    requires cs != []
    ensures Emit(filename, ms, cs, keys, table).1.Keys
      == Emit(filename, ms, cs[..|cs| - 1], keys, table).1.Keys + {AssetName(filename, cs[|cs| - 1].name)}
  {
  }

  /** Every chunk names an asset. */
  lemma {:induction false} EmitCovers(filename: string, ms: seq<ModuleRecord>, cs: seq<Chunk>, keys: seq<string>, table: map<string, string>)
    ensures var e := Emit(filename, ms, cs, keys, table);
      forall j :: 0 <= j < |cs| ==> AssetName(filename, cs[j].name) in e.1
  {
    if cs != [] {
      var init := cs[..|cs| - 1];
      EmitCovers(filename, ms, init, keys, table);
      EmitNames(filename, ms, cs, keys, table);
      forall j | 0 <= j < |init|
        ensures cs[j] == init[j]
      {
      }
    }
  }

  /** The asset under a name is the bundle of the last chunk with that
      name. */
  lemma {:induction false} EmitLastWins(filename: string, ms: seq<ModuleRecord>, cs: seq<Chunk>, keys: seq<string>, table: map<string, string>, j: nat)
    requires j < |cs|
    requires forall l :: j < l < |cs| ==> AssetName(filename, cs[l].name) != AssetName(filename, cs[j].name)
    ensures var e := Emit(filename, ms, cs, keys, table);
      AssetName(filename, cs[j].name) in e.1 && e.1[AssetName(filename, cs[j].name)] == RenderChunk(ms, cs[j])
  {
    if j < |cs| - 1 {
      var init := cs[..|cs| - 1];
      assert init[j] == cs[j];
      forall l | j < l < |init|
        ensures AssetName(filename, init[l].name) != AssetName(filename, init[j].name)
      {
        assert init[l] == cs[l];
      }
      EmitLastWins(filename, ms, init, keys, table, j);
      assert AssetName(filename, cs[|cs| - 1].name) != AssetName(filename, cs[j].name);
    }
  }

  /** Assets no chunk names keep their earlier content. */
  lemma {:induction false} EmitUntouched(filename: string, ms: seq<ModuleRecord>, cs: seq<Chunk>, keys: seq<string>, table: map<string, string>, f: string)
    requires f in table
    requires forall j :: 0 <= j < |cs| ==> AssetName(filename, cs[j].name) != f
    ensures var e := Emit(filename, ms, cs, keys, table);
      f in e.1 && e.1[f] == table[f]
  {
    if cs != [] {
      var init := cs[..|cs| - 1];
      forall j | 0 <= j < |init|
        ensures AssetName(filename, init[j].name) != f
      {
        assert init[j] == cs[j];
      }
      EmitUntouched(filename, ms, init, keys, table, f);
      assert AssetName(filename, cs[|cs| - 1].name) != f;
    }
  }

  /** The trace creatChunkAssets leaves, lines 193-212: one Rendered per
      chunk, the emit hook, the output directory made when it is missing,
      one write per asset key in key order, and the done hook. */
  function AssetTrace(host: Host, output: Output, taps: seq<Tap>, cs: seq<Chunk>, keys: seq<string>, table: map<string, string>): seq<Event> {
    RenderEvents(output.filename, cs)
    + HookEvents(taps, EmitHook)
    + (if output.path in host.existing then [] else [MadeDir(output.path)])
    + WriteEvents(host, output.path, keys, table)
    + HookEvents(taps, DoneHook)
  }

  function RenderEvents(filename: string, cs: seq<Chunk>): (r: seq<Event>)
    ensures |r| == |cs| && forall i :: 0 <= i < |cs| ==> r[i] == Rendered(AssetName(filename, cs[i].name))
  {
    seq(|cs|, i requires 0 <= i < |cs| => Rendered(AssetName(filename, cs[i].name)))
  }

  function WriteEvents(host: Host, dir: string, keys: seq<string>, table: map<string, string>): (r: seq<Event>)
    ensures |r| == |keys| && forall i :: 0 <= i < |keys| ==> r[i] == Wrote(host.join(dir, keys[i]), if keys[i] in table then table[keys[i]] else "")
  {
    seq(|keys|, i requires 0 <= i < |keys| => Wrote(host.join(dir, keys[i]), if keys[i] in table then table[keys[i]] else ""))
  }

  /** Hook order of creatChunkAssets: every bundle is rendered before the
      emit hook is called, every file is written after it, and the done hook
      is called after the last write. */
  lemma AssetHookOrder(host: Host, output: Output, taps: seq<Tap>, cs: seq<Chunk>, keys: seq<string>, table: map<string, string>)
    ensures var t := AssetTrace(host, output, taps, cs, keys, table);
      var emit := |cs|;
      var done := |t| - |HookEvents(taps, DoneHook)|;
      && t[emit] == HookCalled(EmitHook)
      && t[done] == HookCalled(DoneHook)
      && (forall i :: 0 <= i < |t| && t[i].Rendered? ==> i < emit)
      && (forall i :: 0 <= i < |t| && t[i].Wrote? ==> emit < i < done)
      && (forall i :: 0 <= i < |t| && t[i].HookCalled? ==> i == emit || i == done)
  {
    var r := RenderEvents(output.filename, cs);
    var he := HookEvents(taps, EmitHook);
    var m: seq<Event> := if output.path in host.existing then [] else [MadeDir(output.path)];
    var w := WriteEvents(host, output.path, keys, table);
    var hd := HookEvents(taps, DoneHook);
    var t := r + he + m + w + hd;
    assert AssetTrace(host, output, taps, cs, keys, table) == t;
    forall i | 0 <= i < |t|
      ensures t[i].Rendered? ==> i < |cs|
      ensures t[i].Wrote? ==> |cs| < i < |t| - |hd|
      ensures t[i].HookCalled? ==> i == |cs| || i == |t| - |hd|
    {
      if |r| < i < |r| + |he| {
        assert t[i] == TapEvents(taps, EmitHook)[i - |r| - 1];
        assert t[i] in TapEvents(taps, EmitHook);
      } else if |r| + |he| + |m| + |w| < i {
        assert t[i] == TapEvents(taps, DoneHook)[i - (|r| + |he| + |m| + |w|) - 1];
        assert t[i] in TapEvents(taps, DoneHook);
      }
    }
  }

  /** The entry records of the chunks, in order. */
  function EntryRecords(cs: seq<Chunk>): seq<ModuleRecord> {
    if cs == [] then [] else [cs[0].entryModule] + EntryRecords(cs[1..])
  }

  lemma {:induction false} EntryRecordsConcat(a: seq<Chunk>, b: seq<Chunk>)
    ensures EntryRecords(a + b) == EntryRecords(a) + EntryRecords(b)
  {
    if a != [] {
      assert (a + b)[0] == a[0] && (a + b)[1..] == a[1..] + b;
      EntryRecordsConcat(a[1..], b);
    } else {
      assert a + b == b;
    }
  }

  /** Appending one chunk to those formed so far, as seen from the fields
      that hold chunks and entry records. */
  lemma ChunkAppended(chunks0: seq<Chunk>, entries0: seq<ModuleRecord>, done: seq<Chunk>, c: Chunk)
    ensures chunks0 + done + [c] == chunks0 + (done + [c])
    ensures entries0 + EntryRecords(done) + [c.entryModule] == entries0 + EntryRecords(done + [c])
  {
    EntryRecordsConcat(done, [c]);
    assert EntryRecords([c]) == [c.entryModule];
  }

  /** The entry loop's invariant: the entries still to build, from state
      `st`, end as `target` does, and the chunks formed so far followed by
      theirs are `all`. */
  ghost predicate EntryLoop(host: Host, root: string, rules: seq<Rule>, rest: seq<(string, string)>, st: BuildState, fuel: nat,
                            target: Out<seq<ModuleRecord>>, all: seq<Chunk>, done: seq<Chunk>)
  {
    SameOutcome(target, BuildEntries(host, root, rules, rest, st, fuel))
    && done + EntryChunks(host, root, rules, rest, st, fuel) == all
  }

  /** One step of the entry loop. On success the chunk of this entry joins
      the formed ones; on failure the whole loop ends in this build's state
      with its error, and no further chunk is formed. */
  lemma EntryStep(host: Host, root: string, rules: seq<Rule>, entry: seq<(string, string)>, k: nat, st: BuildState, fuel: nat,
                  target: Out<seq<ModuleRecord>>, all: seq<Chunk>, done: seq<Chunk>, b: Out<ModuleRecord>)
    requires k < |entry|
    requires EntryLoop(host, root, rules, entry[k..], st, fuel, target, all, done)
    requires b == Build(host, root, rules, entry[k].0, entry[k].1, st, fuel)
    ensures b.res.Ok? ==>
      EntryLoop(host, root, rules, entry[k + 1..], b.st, fuel, target, all,
                done + [Chunk(entry[k].0, b.res.value, Owned(b.st.modules, entry[k].0))])
    ensures b.res.Err? ==> target.st == b.st && target.res.Err? && target.res.error == b.res.error && done == all
  {
    assert entry[k..][0] == entry[k] && entry[k..][1..] == entry[k + 1..];
    assert done + [] == done;
  }

  /** The entry loop after the last entry: the target succeeded in the
      current state and every chunk is formed. */
  lemma EntryLoopDone(host: Host, root: string, rules: seq<Rule>, st: BuildState, fuel: nat,
                      target: Out<seq<ModuleRecord>>, all: seq<Chunk>, done: seq<Chunk>)
    requires EntryLoop(host, root, rules, [], st, fuel, target, all, done)
    ensures target.st == st && target.res.Ok? && done == all
  {
    assert done + [] == done;
  }

  /** Regrouping the pieces of a trace after a prefix. */
  lemma Regroup(t: seq<Event>, a: seq<Event>, b: seq<Event>, c: seq<Event>, d: seq<Event>, e: seq<Event>)
    ensures t + a + b + c + d + e == t + (a + b + c + d + e)
  {
  }

  /** Two build outcomes end in the same state with the same verdict. */
  ghost predicate SameOutcome<T, U>(a: Out<T>, b: Out<U>) {
    a.st == b.st && (a.res.Err? <==> b.res.Err?) && (a.res.Err? ==> a.res.error == b.res.error)
  }

  /** What a run whose builds all succeed writes, with distinct entry
      names and no assets before it: the asset keys are the entries' file
      names, each once, in entry order; every entry has its file; and a file
      that no later entry's name also maps to holds the bundle of that
      entry's record and of the records that carry its name at the end. */
  lemma RunAssets(host: Host, root: string, rules: seq<Rule>, entry: seq<(string, string)>, st: BuildState, fuel: nat, filename: string)
    requires NoDup(Names(entry))
    ensures var o := BuildEntries(host, root, rules, entry, st, fuel);
      var cs := EntryChunks(host, root, rules, entry, st, fuel);
      var e := Emit(filename, o.st.modules, cs, [], map[]);
      o.res.Ok? ==>
        && |o.res.value| == |entry|
        && e.0 == FirstNew([], ChunkAssetNames(filename, cs))
        && (forall k :: 0 <= k < |entry| ==> AssetName(filename, entry[k].0) in e.1)
        && forall k :: 0 <= k < |entry| && (forall l :: k < l < |entry| ==> AssetName(filename, entry[l].0) != AssetName(filename, entry[k].0)) ==>
             e.1[AssetName(filename, entry[k].0)]
             == RenderRequire(entry[k].0, o.res.value[k], ChunkRecords(o.st.modules, Owned(o.st.modules, entry[k].0)))
  {
    var o := BuildEntries(host, root, rules, entry, st, fuel);
    var cs := EntryChunks(host, root, rules, entry, st, fuel);
    if o.res.Ok? {
      var ms := o.st.modules;
      ChunksExact(host, root, rules, entry, st, fuel);
      EmitKeyOrder(filename, ms, cs, [], map[]);
      assert [] + FirstNew([], ChunkAssetNames(filename, cs)) == FirstNew([], ChunkAssetNames(filename, cs));
      EmitCovers(filename, ms, cs, [], map[]);
      forall k | 0 <= k < |entry| && (forall l :: k < l < |entry| ==> AssetName(filename, entry[l].0) != AssetName(filename, entry[k].0))
        ensures Emit(filename, ms, cs, [], map[]).1[AssetName(filename, entry[k].0)]
             == RenderRequire(entry[k].0, o.res.value[k], ChunkRecords(ms, Owned(ms, entry[k].0)))
      {
        assert forall l :: k < l < |cs| ==> AssetName(filename, cs[l].name) != AssetName(filename, cs[k].name);
        EmitLastWins(filename, ms, cs, [], map[], k);
      }
    }
  }

  // ----------------------------------------------------------- the class

  /** The stats object handed to the callback: `toJson()`'s fields. */
  datatype Stats = Stats(entries: seq<ModuleRecord>, modules: seq<ModuleRecord>, files: seq<string>,
                         chunks: seq<Chunk>, assets: map<string, string>)

  class Compiler {
    const host: Host
    var options: Options
    const rootPath: string
    /** The callbacks tapped on the three hooks, in registration order. */
    var taps: seq<Tap>
    var entries: seq<ModuleRecord>
    var modules: seq<ModuleRecord>
    var chunks: seq<Chunk>
    /** The assets object: its keys in insertion order, and its values. */
    var assetNames: seq<string>
    var assets: map<string, string>
    var files: seq<string>
    var originSourceCode: string
    var moduleCode: string
    /** Hook calls and file system effects, in order. */
    var trace: seq<Event>

    /** The root is the `context` option, or else the working directory
        with unix separators; every collection starts empty. */
    constructor(host: Host, options: Options)
      ensures this.host == host && this.options == options
      ensures rootPath == if options.context != "" then options.context else ToUnixPath(Some(host.cwd))
      ensures taps == [] && entries == [] && modules == [] && chunks == []
      ensures assetNames == [] && assets == map[] && files == [] && trace == []
    {
      this.host := host;
      this.options := options;
      rootPath := if options.context != "" then options.context else ToUnixPath(Some(host.cwd));
      taps := [];
      entries := [];
      modules := [];
      chunks := [];
      assetNames := [];
      assets := map[];
      files := [];
      originSourceCode := "";
      moduleCode := "";
      trace := [];
    }

    /** The fields a module build reads and writes. */
    ghost function State(): BuildState
      reads this`modules, this`options, this`originSourceCode, this`moduleCode
    {
      BuildState(modules, options.extensions, originSourceCode, moduleCode)
    }

    /** `hooks.<phase>.call()`. */
    method CallHook(phase: Phase)
      modifies this`trace
      ensures trace == old(trace) + HookEvents(taps, phase)
    {
      trace := trace + [HookCalled(phase)];
      var i := 0;
      while i < |taps|
        invariant 0 <= i <= |taps|
        invariant trace == old(trace) + [HookCalled(phase)] + TapEvents(taps[..i], phase)
      {
        if taps[i].phase == phase {
          trace := trace + [TapRan(phase, taps[i].tapName)];
        }
        assert taps[..i + 1][..i] == taps[..i];
        i := i + 1;
      }
      assert taps[..i] == taps;
    }

    /** getEntry, lines 49-64. An entry object is the options' own object,
        so its normalised paths show in `options.entry` too. */
    method GetEntry() returns (entry: seq<(string, string)>)
      modifies this`options
      ensures entry == Normalized(host, rootPath, EntryPairs(old(options.entry)))
      ensures options == if old(options.entry).Named? then old(options).(entry := Named(entry)) else old(options)
    {
      entry := EntryPairs(options.entry);
      var given := entry;
      var i := 0;
      while i < |given|
        invariant 0 <= i <= |given| && |entry| == |given|
        invariant forall j :: 0 <= j < i ==> entry[j] == (given[j].0, NormalPath(host, rootPath, given[j].1))
        invariant forall j :: i <= j < |given| ==> entry[j] == given[j]
        invariant options == if old(options.entry).Named? then old(options).(entry := Named(entry)) else old(options)
      {
        if !host.isAbsolute(given[i].1) {
          entry := entry[i := (given[i].0, ToUnixPath(Some(host.join(rootPath, given[i].1))))];
          if options.entry.Named? {
            options := options.(entry := Named(entry));
          }
        }
        i := i + 1;
      }
    }

    /** handleLoader, lines 92-112: collect the loaders of the matching
        rules, then run them from the last to the first over `moduleCode`. */
    method HandleLoader(path: string) returns (r: Result<()>)
      modifies this`moduleCode
      ensures MatchedLoaders(options.rules, path).Err? ==>
        r == Err(MatchedLoaders(options.rules, path).error) && moduleCode == old(moduleCode)
      ensures MatchedLoaders(options.rules, path).Ok? ==>
        r == Ok(()) && moduleCode == ApplyLoaders(host.loader, MatchedLoaders(options.rules, path).value, old(moduleCode))
    {
      var rules := options.rules;
      var matched: seq<string> := [];
      var i := 0;
      while i < |rules|
        invariant 0 <= i <= |rules|
        invariant MatchedLoaders(rules[..i], path) == Ok(matched)
      {
        var rule := rules[i];
        assert rules[..i + 1][..i] == rules[..i];
        if rule.test(path) {
          if rule.loader != "" {
            assert Contribution(rule, path) == Ok([rule.loader]);
            matched := matched + [rule.loader];
          } else if rule.use.Some? {
            assert Contribution(rule, path) == Ok(rule.use.value);
            matched := matched + rule.use.value;
          } else {
            MatchedConcat(rules[..i + 1], rules[i + 1..], path);
            assert rules[..i + 1] + rules[i + 1..] == rules;
            r := Err(MissingUse(path));
            return;
          }
        } else {
          assert Contribution(rule, path) == Ok([]);
          assert matched + [] == matched;
        }
        assert MatchedLoaders(rules[..i + 1], path) == Ok(matched);
        i := i + 1;
      }
      assert rules[..i] == rules;
      var k := |matched|;
      while k > 0
        invariant 0 <= k <= |matched|
        invariant moduleCode == ApplyLoaders(host.loader, matched[k..], old(moduleCode))
      {
        k := k - 1;
        assert matched[k..][1..] == matched[k + 1..];
        moduleCode := host.loader(matched[k])(moduleCode);
      }
      r := Ok(());
    }

    /** The `this.modules.forEach` of lines 156-160: `name` is pushed onto
        every record whose id is `id`. */
    method AppendEntryName(id: string, name: string)
      modifies this`modules
      ensures modules == PushName(old(modules), id, name)
    {
      var j := 0;
      while j < |modules|
        invariant 0 <= j <= |modules| == |old(modules)|
        invariant forall i :: 0 <= i < j ==> modules[i] == PushName(old(modules), id, name)[i]
        invariant forall i :: j <= i < |modules| ==> modules[i] == old(modules)[i]
      {
        if modules[j].id == id {
          modules := modules[j := modules[j].(name := modules[j].name + [name])];
        }
        j := j + 1;
      }
    }

    /** The traversal of lines 125-164 over the call nodes, which it
        rewrites in place; it returns the pending ids. */
    method VisitCalls(name: string, path: string, nodes: array<Call>) returns (r: Result<seq<string>>)
      modifies nodes, this`modules, this`options
      ensures options == old(options).(extensions := options.extensions)
      ensures var v := Visit(host, rootPath, name, path, old(State()), Walked([], []), old(nodes[..]));
        && State() == v.st
        && (r.Ok? <==> v.res.Ok?)
        && (r.Ok? ==> nodes[..] == v.res.value.calls && r.value == v.res.value.deps)
        && (r.Err? ==> r.error == v.res.error)
    {
      ghost var calls := nodes[..];
      ghost var st0 := State();
      var deps: seq<string> := [];
      var i := 0;
      while i < nodes.Length
        invariant 0 <= i <= nodes.Length
        invariant nodes[i..] == calls[i..]
        invariant options == old(options).(extensions := options.extensions)
        invariant Visit(host, rootPath, name, path, st0, Walked([], []), calls)
               == Visit(host, rootPath, name, path, State(), Walked(nodes[..i], deps), calls[i..])
      {
        ghost var w := Walked(nodes[..i], deps);
        ghost var st := State();
        assert calls[i..][0] == nodes[i] && calls[i..][1..] == calls[i + 1..];
        var c := nodes[i];
        if c.callee == "require" {
          if c.arg.None? {
            r := Err(BadRequireArgument(path));
            return;
          }
          var requirePath := c.arg.value;
          var dir := host.dirname(path);
          var extended, resolved := TryExtensions(host.join(dir, requirePath), options.extensions, requirePath, dir, host.existing);
          options := options.(extensions := extended);
          if resolved.Err? {
            r := Err(resolved.error);
            return;
          }
          var id := ModuleId(host, rootPath, resolved.value);
          nodes[i] := Call(WebpackRequire, Some(id));
          if id !in Ids(modules) {
            if id !in deps {
              deps := deps + [id];
            }
          } else {
            AppendEntryName(id, name);
          }
        }
        assert nodes[..i + 1] == w.calls + [nodes[i]];
        assert VisitCall(host, rootPath, name, path, st, w, c) == Out(State(), Ok(Walked(nodes[..i + 1], deps)));
        i := i + 1;
      }
      assert nodes[..i] == nodes[..];
      r := Ok(deps);
    }

    /** buildModule, lines 77-90: read the file, keep its text, run the
        loaders, and compile. `fuel` is the depth the stack allows. */
    method BuildModule(name: string, path: string, fuel: nat) returns (r: Result<ModuleRecord>)
      modifies this`modules, this`options, this`originSourceCode, this`moduleCode
      ensures options == old(options).(extensions := options.extensions)
      ensures var b := Build(host, rootPath, options.rules, name, path, old(State()), fuel);
        State() == b.st && r == b.res
      decreases fuel, 0
    {
      if fuel == 0 {
        r := Err(StackOverflow);
        return;
      }
      if path !in host.files {
        r := Err(ModuleReadError(path));
        return;
      }
      originSourceCode := host.files[path];
      moduleCode := originSourceCode;
      var loaded := HandleLoader(path);
      if loaded.Err? {
        r := Err(loaded.error);
        return;
      }
      r := HandleWebpackCompiler(name, path, fuel - 1);
    }

    /** handleWebpackCompiler, lines 114-176. */
    method HandleWebpackCompiler(name: string, path: string, depth: nat) returns (r: Result<ModuleRecord>)
      modifies this`modules, this`options, this`originSourceCode, this`moduleCode
      ensures options == old(options).(extensions := options.extensions)
      ensures var c := Compile(host, rootPath, options.rules, name, path, old(State()), depth);
        State() == c.st && r == c.res
      decreases depth, 1
    {
      var id := ModuleId(host, rootPath, path);
      var parsed := host.parse(moduleCode);
      if parsed.None? {
        r := Err(ParseError(path));
        return;
      }
      var nodes := new Call[|parsed.value|](i requires 0 <= i < |parsed.value| => parsed.value[i]);
      assert nodes[..] == parsed.value;
      var visited := VisitCalls(name, path, nodes);
      if visited.Err? {
        r := Err(visited.error);
        return;
      }
      var deps := visited.value;
      var record := ModuleRecord(id, deps, [name], host.generate(nodes[..]));
      ghost var stV := State();
      var k := 0;
      while k < |deps|
        invariant 0 <= k <= |deps|
        invariant options == old(options).(extensions := options.extensions)
        invariant BuildDeps(host, rootPath, options.rules, name, deps, stV, depth)
               == BuildDeps(host, rootPath, options.rules, name, deps[k..], State(), depth)
      {
        assert deps[k..][0] == deps[k] && deps[k..][1..] == deps[k + 1..];
        var built := BuildModule(name, deps[k], depth);
        if built.Err? {
          r := Err(built.error);
          return;
        }
        modules := modules + [built.value];
        k := k + 1;
      }
      r := Ok(record);
    }

    /** buildUpChunk, lines 178-188. */
    method BuildUpChunk(entryName: string, entryObj: ModuleRecord)
      modifies this`chunks
      ensures chunks == old(chunks) + [Chunk(entryName, entryObj, Owned(modules, entryName))]
    {
      chunks := chunks + [Chunk(entryName, entryObj, Owned(modules, entryName))];
    }

    /** buildEntryModule, lines 66-75: build each entry, keep its record
        apart in `entries`, and form its chunk at once. */
    method BuildEntryModule(entry: seq<(string, string)>, fuel: nat) returns (r: Result<()>)
      modifies this`modules, this`options, this`originSourceCode, this`moduleCode, this`entries, this`chunks
      ensures options == old(options).(extensions := options.extensions)
      ensures var o := BuildEntries(host, rootPath, options.rules, entry, old(State()), fuel);
        && State() == o.st
        && (r.Ok? <==> o.res.Ok?)
        && (r.Err? ==> r.error == o.res.error)
      ensures var cs := EntryChunks(host, rootPath, options.rules, entry, old(State()), fuel);
        chunks == old(chunks) + cs && entries == old(entries) + EntryRecords(cs)
    {
      ghost var options0, chunks0, entries0 := options, chunks, entries;
      ghost var rules := options.rules;
      ghost var target := BuildEntries(host, rootPath, rules, entry, State(), fuel);
      ghost var all := EntryChunks(host, rootPath, rules, entry, State(), fuel);
      ghost var done: seq<Chunk> := [];
      var k := 0;
      while k < |entry|
        invariant 0 <= k <= |entry|
        invariant options == options0.(extensions := options.extensions)
        invariant EntryLoop(host, rootPath, rules, entry[k..], State(), fuel, target, all, done)
        invariant chunks == chunks0 + done && entries == entries0 + EntryRecords(done)
      {
        ghost var st := State();
        var built := AddEntry(entry[k].0, entry[k].1, fuel);
        ghost var b := Build(host, rootPath, rules, entry[k].0, entry[k].1, st, fuel);
        EntryStep(host, rootPath, rules, entry, k, st, fuel, target, all, done, b);
        if built.Err? {
          assert options.rules == rules;
          r := Err(built.error);
          return;
        }
        ghost var c := Chunk(entry[k].0, built.value, Owned(modules, entry[k].0));
        ChunkAppended(chunks0, entries0, done, c);
        done := done + [c];
        k := k + 1;
      }
      EntryLoopDone(host, rootPath, rules, State(), fuel, target, all, done);
      assert options.rules == rules;
      r := Ok(());
    }

    /** One turn of buildEntryModule's loop: build the entry, add its record
        to `entries` and form its chunk. */
    method AddEntry(name: string, path: string, fuel: nat) returns (r: Result<ModuleRecord>)
      modifies this`modules, this`options, this`originSourceCode, this`moduleCode, this`entries, this`chunks
      ensures options == old(options).(extensions := options.extensions)
      ensures var b := Build(host, rootPath, options.rules, name, path, old(State()), fuel);
        && State() == b.st && r == b.res
        && (r.Ok? ==> entries == old(entries) + [r.value] && chunks == old(chunks) + [Chunk(name, r.value, Owned(modules, name))])
        && (r.Err? ==> entries == old(entries) && chunks == old(chunks))
    {
      r := BuildModule(name, path, fuel);
      if r.Ok? {
        entries := entries + [r.value];
        BuildUpChunk(name, r.value);
      }
    }

    /** creatChunkAssets, lines 190-225. */
    method CreatChunkAssets() returns (stats: Stats)
      modifies this`assetNames, this`assets, this`files, this`trace
      ensures assetNames == Emit(options.output.filename, modules, chunks, old(assetNames), old(assets)).0
      ensures assets == Emit(options.output.filename, modules, chunks, old(assetNames), old(assets)).1
      ensures files == assetNames
      ensures trace == old(trace) + AssetTrace(host, options.output, taps, chunks, assetNames, assets)
      ensures stats == Stats(entries, modules, files, chunks, assets)
    {
      ghost var t0 := trace;
      RenderAssets();
      ghost var rendered := RenderEvents(options.output.filename, chunks);
      CallHook(EmitHook);
      ghost var t1 := trace;
      assert t1 == t0 + rendered + HookEvents(taps, EmitHook);
      ghost var made: seq<Event> := if options.output.path in host.existing then [] else [MadeDir(options.output.path)];
      if options.output.path !in host.existing {
        trace := trace + [MadeDir(options.output.path)];
      }
      assert trace == t1 + made;
      files := assetNames;
      ghost var t2 := trace;
      WriteAssets();
      ghost var written := WriteEvents(host, options.output.path, assetNames, assets);
      assert trace == t2 + written;
      ghost var t3 := trace;
      CallHook(DoneHook);
      assert trace == t3 + HookEvents(taps, DoneHook);
      assert trace == t0 + rendered + HookEvents(taps, EmitHook) + made + written + HookEvents(taps, DoneHook);
      Regroup(t0, rendered, HookEvents(taps, EmitHook), made, written, HookEvents(taps, DoneHook));
      stats := Stats(entries, modules, files, chunks, assets);
    }

    /** The `this.chunks.forEach` of lines 193-197. */
    method RenderAssets()
      modifies this`assetNames, this`assets, this`trace
      ensures assetNames == Emit(options.output.filename, modules, chunks, old(assetNames), old(assets)).0
      ensures assets == Emit(options.output.filename, modules, chunks, old(assetNames), old(assets)).1
      ensures trace == old(trace) + RenderEvents(options.output.filename, chunks)
    {
      var filename, ms, cs := options.output.filename, modules, chunks;
      var keys0, table0, trace0 := assetNames, assets, trace;
      var names, table := keys0, table0;
      var events: seq<Event> := [];
      var j := 0;
      while j < |cs|
        invariant 0 <= j <= |cs|
        invariant (names, table) == Emit(filename, ms, cs[..j], keys0, table0)
        invariant events == RenderEvents(filename, cs[..j])
      {
        var fileName := AssetName(filename, cs[j].name);
        EmitStep(filename, ms, cs, j, keys0, table0);
        if fileName !in table {
          names := names + [fileName];
        }
        table := table[fileName := RenderChunk(ms, cs[j])];
        events := events + [Rendered(fileName)];
        j := j + 1;
      }
      assert cs[..j] == cs;
      assetNames, assets, trace := names, table, trace0 + events;
    }

    /** The `Object.keys(this.assets).forEach` of lines 206-210. */
    method WriteAssets()
      modifies this`trace
      ensures trace == old(trace) + WriteEvents(host, options.output.path, assetNames, assets)
    {
      var dir, keys, table, trace0 := options.output.path, assetNames, assets, trace;
      var events: seq<Event> := [];
      var w := 0;
      while w < |keys|
        invariant 0 <= w <= |keys|
        invariant events == WriteEvents(host, dir, keys[..w], table)
      {
        var content := if keys[w] in table then table[keys[w]] else "";
        assert WriteEvents(host, dir, keys[..w + 1], table)
            == WriteEvents(host, dir, keys[..w], table) + [Wrote(host.join(dir, keys[w]), content)];
        events := events + [Wrote(host.join(dir, keys[w]), content)];
        w := w + 1;
      }
      assert keys[..w] == keys;
      trace := trace0 + events;
    }

    /** The first three steps of run, lines 40-43: the run hook, the
        entries, and their builds and chunks. The builds use the rules and
        output given at the start, and add no event to the trace. */
    method RunBuild(fuel: nat) returns (r: Result<()>)
      modifies this`modules, this`options, this`originSourceCode, this`moduleCode, this`entries, this`chunks, this`trace
      ensures var entry := Normalized(host, rootPath, EntryPairs(old(options.entry)));
        options == (if old(options.entry).Named? then old(options).(entry := Named(entry)) else old(options))
                   .(extensions := options.extensions)
      ensures var entry := Normalized(host, rootPath, EntryPairs(old(options.entry)));
        var o := BuildEntries(host, rootPath, old(options.rules), entry, old(State()), fuel);
        var cs := EntryChunks(host, rootPath, old(options.rules), entry, old(State()), fuel);
        && State() == o.st
        && (r.Ok? <==> o.res.Ok?)
        && (r.Err? ==> r.error == o.res.error)
        && chunks == old(chunks) + cs
        && entries == old(entries) + EntryRecords(cs)
      ensures trace == old(trace) + HookEvents(taps, RunHook)
    {
      ghost var st0, rules := State(), options.rules;
      CallHook(RunHook);
      ghost var trace1 := trace;
      var entry := GetEntry();
      assert State() == st0 && options.rules == rules && chunks == old(chunks);
      r := BuildEntryModule(entry, fuel);
      assert options.rules == rules && trace == trace1;
    }

    /** run, lines 38-46: the run hook, the entries, their builds and
        chunks, and the assets, whose stats are the result. A failure
        anywhere ends the run before any asset is made. */
    method Run(fuel: nat) returns (r: Result<Stats>)
      modifies this`modules, this`options, this`originSourceCode, this`moduleCode, this`entries, this`chunks
      modifies this`assetNames, this`assets, this`files, this`trace
      ensures var entry := Normalized(host, rootPath, EntryPairs(old(options.entry)));
        options == (if old(options.entry).Named? then old(options).(entry := Named(entry)) else old(options))
                   .(extensions := options.extensions)
      ensures var entry := Normalized(host, rootPath, EntryPairs(old(options.entry)));
        var o := BuildEntries(host, rootPath, old(options.rules), entry, old(State()), fuel);
        var cs := EntryChunks(host, rootPath, old(options.rules), entry, old(State()), fuel);
        && State() == o.st
        && (r.Ok? <==> o.res.Ok?)
        && (r.Err? ==> r.error == o.res.error)
        && chunks == old(chunks) + cs
        && entries == old(entries) + EntryRecords(cs)
      ensures r.Err? ==>
        && trace == old(trace) + HookEvents(taps, RunHook)
        && assetNames == old(assetNames) && assets == old(assets) && files == old(files)
      ensures r.Ok? ==>
        var e := Emit(old(options.output).filename, modules, chunks, old(assetNames), old(assets));
        && assetNames == e.0 && assets == e.1 && files == assetNames
        && r.value == Stats(entries, modules, files, chunks, assets)
        && trace == old(trace) + HookEvents(taps, RunHook) + AssetTrace(host, old(options.output), taps, chunks, assetNames, assets)
    {
      var built := RunBuild(fuel);
      if built.Err? {
        r := Err(built.error);
        return;
      }
      ghost var st2, chunks2, entries2 := State(), chunks, entries;
      var stats := CreatChunkAssets();
      assert State() == st2 && chunks == chunks2 && entries == entries2;
      r := Ok(stats);
    }
  }
}
