/**
 * Properties of the module-graph functions of ModuleGraph: the loader
 * pipeline's order, the rewrite and dedup rules of the call-site visitor,
 * how records are tagged with entry names, when the recursion stays within
 * a depth bound, and what the recursion does on a cycle and on a shared
 * dependency.
 */
module GraphFacts {
  import opened Types
  import opened Utils
  import opened ModuleGraph

  // ------------------------------------------------------------ the loaders

  /** Matching over two runs of rules concatenates what each run matched, in
      rule order; the first failing rule decides the error. */
  lemma {:induction false} MatchedConcat(a: seq<Rule>, b: seq<Rule>, path: string)
    ensures MatchedLoaders(a + b, path) ==
      match MatchedLoaders(a, path)
      case Err(e) => Err(e)
      case Ok(x) =>
        match MatchedLoaders(b, path)
        case Err(e) => Err(e)
        case Ok(y) => Ok(x + y)
    decreases |b|
  {
    if b == [] {
      assert a + b == a;
      match MatchedLoaders(a, path)
      case Err(e) =>
      case Ok(x) => assert x + [] == x;
    } else {
      var b' := b[..|b| - 1];
      assert (a + b)[..|a + b| - 1] == a + b';
      assert (a + b)[|a + b| - 1] == b[|b| - 1];
      MatchedConcat(a, b', path);
      match MatchedLoaders(a, path)
      case Err(e) =>
      case Ok(x) =>
        match MatchedLoaders(b', path)
        case Err(e) =>
        case Ok(y) =>
          match Contribution(b[|b| - 1], path)
          case Err(e) =>
          case Ok(z) =>
            assert x + y + z == x + (y + z);
    }
  }

  /** Rules whose test rejects the path add no loader, so with no match the
      code reaches the parser as it was read. */
  lemma {:induction false} NoMatchNoLoaders(rules: seq<Rule>, path: string, loader: string -> (string -> string), code: string)
    requires forall i :: 0 <= i < |rules| ==> !rules[i].test(path)
    ensures MatchedLoaders(rules, path) == Ok([])
    ensures ApplyLoaders(loader, MatchedLoaders(rules, path).value, code) == code
  {
    if rules != [] {
      NoMatchNoLoaders(rules[..|rules| - 1], path, loader, code);
      assert Contribution(rules[|rules| - 1], path) == Ok([]);
      var none: seq<string> := [];
      assert none + none == none;
    }
  }

  /** Running a concatenated list is running the second part first and the
      first part on its output. */
  lemma {:induction false} ApplyConcat(loader: string -> (string -> string), a: seq<string>, b: seq<string>, code: string)
    ensures ApplyLoaders(loader, a + b, code) == ApplyLoaders(loader, a, ApplyLoaders(loader, b, code))
  {
    if a == [] {
      assert a + b == b;
    } else {
      assert (a + b)[1..] == a[1..] + b;
      ApplyConcat(loader, a[1..], b, code);
    }
  }

  // ------------------------------------------------------ the call visitor

  /** A call site as the visitor leaves it, given the extension list it
      starts from: untouched unless its callee is `require`, in which case
      its literal must resolve and the call becomes
      `__webpack_require__(<id of the resolved path>)`. */
  function Rewrite(host: Host, root: string, path: string, exts: seq<string>, c: Call): Option<Call> {
    if c.callee != "require" then Some(c)
    else if c.arg.None? then None
    else
      match FirstExisting(host.join(host.dirname(path), c.arg.value), [""] + exts, host.existing)
      case None => None
      case Some(abs) => Some(Call(WebpackRequire, Some(ModuleId(host, root, abs))))
  }

  predicate AllRewrite(host: Host, root: string, path: string, exts: seq<string>, calls: seq<Call>) {
    forall i :: 0 <= i < |calls| ==> Rewrite(host, root, path, exts, calls[i]).Some?
  }

  /** The calls after rewriting, call by call, or None once one fails. */
  function RewriteAll(host: Host, root: string, path: string, exts: seq<string>, calls: seq<Call>): Option<seq<Call>> {
    if calls == [] then Some([])
    else
      match Rewrite(host, root, path, exts, calls[0])
      case None => None
      case Some(c) =>
        match RewriteAll(host, root, path, exts, calls[1..])
        case None => None
        case Some(cs) => Some([c] + cs)
  }

  /** Rewriting the whole list succeeds exactly when every call rewrites,
      and then rewrites each call in its place. */
  lemma {:induction false} RewriteAllSpec(host: Host, root: string, path: string, exts: seq<string>, calls: seq<Call>)
    ensures RewriteAll(host, root, path, exts, calls).Some? <==> AllRewrite(host, root, path, exts, calls)
    ensures RewriteAll(host, root, path, exts, calls).Some? ==>
      var r := RewriteAll(host, root, path, exts, calls).value;
      |r| == |calls| && forall i :: 0 <= i < |calls| ==> r[i] == Rewrite(host, root, path, exts, calls[i]).value
  {
    if calls != [] {
      RewriteAllSpec(host, root, path, exts, calls[1..]);
      assert forall i :: 1 <= i < |calls| ==> calls[i] == calls[1..][i - 1];
      if !AllRewrite(host, root, path, exts, calls) {
        var i :| 0 <= i < |calls| && Rewrite(host, root, path, exts, calls[i]).None?;
        if i > 0 {
          assert Rewrite(host, root, path, exts, calls[1..][i - 1]).None?;
        }
      }
    }
  }

  /** The ids the `require` calls resolve to, in call order. */
  function RequireIds(host: Host, root: string, path: string, exts: seq<string>, calls: seq<Call>): seq<string> {
    if calls == [] then []
    else
      var c := calls[0];
      var r := Rewrite(host, root, path, exts, c);
      (if c.callee == "require" && r.Some? then [r.value.arg.value] else [])
      + RequireIds(host, root, path, exts, calls[1..])
  }

  function NumRequires(calls: seq<Call>): nat {
    if calls == [] then 0 else (if calls[0].callee == "require" then 1 else 0) + NumRequires(calls[1..])
  }

  /** The "" that each resolution leaves at the head of the extension list
      does not change any later resolution. */
  lemma RewriteStable(host: Host, root: string, path: string, exts: seq<string>, c: Call)
    ensures Rewrite(host, root, path, [""] + exts, c) == Rewrite(host, root, path, exts, c)
  {
    if c.callee == "require" && c.arg.Some? {
      var cand := host.join(host.dirname(path), c.arg.value);
      LeadingEmptiesHarmless(cand, 1, exts, host.existing);
      assert Repeat("", 1) + [""] + exts == [""] + ([""] + exts);
    }
  }

  lemma {:induction false} RequireIdsStable(host: Host, root: string, path: string, exts: seq<string>, calls: seq<Call>)
    ensures RequireIds(host, root, path, [""] + exts, calls) == RequireIds(host, root, path, exts, calls)
  {
    if calls != [] {
      RewriteStable(host, root, path, exts, calls[0]);
      RequireIdsStable(host, root, path, exts, calls[1..]);
    }
  }

  /** The "" that each resolution leaves at the head of the extension list
      does not change the rewriting of later calls. */
  lemma {:induction false} RewriteAllStable(host: Host, root: string, path: string, exts: seq<string>, calls: seq<Call>)
    ensures RewriteAll(host, root, path, [""] + exts, calls) == RewriteAll(host, root, path, exts, calls)
  {
    if calls != [] {
      RewriteStable(host, root, path, exts, calls[0]);
      RewriteAllStable(host, root, path, exts, calls[1..]);
    }
  }

  /** One call site: the visitor step succeeds exactly when the call
      rewrites, appends the rewritten call, and a `require` puts one "" at
      the head of the extension list. */
  lemma VisitCallRewrites(host: Host, root: string, name: string, path: string, st: BuildState, w: Walked, c: Call)
    ensures var o := VisitCall(host, root, name, path, st, w, c);
      var r := Rewrite(host, root, path, st.extensions, c);
      && (o.res.Ok? <==> r.Some?)
      && (o.res.Ok? ==> o.res.value.calls == w.calls + [r.value])
      && (o.res.Ok? ==> o.st.extensions == if c.callee == "require" then [""] + st.extensions else st.extensions)
  {}

  /** The visitor succeeds exactly when every call site rewrites; it then
      produces the rewritten calls in order, and the extension list has
      gained one "" per `require` call. */
  lemma {:induction false} VisitRewrites(host: Host, root: string, name: string, path: string, st: BuildState, w: Walked, calls: seq<Call>)
    ensures var o := Visit(host, root, name, path, st, w, calls);
      && (o.res.Ok? <==> RewriteAll(host, root, path, st.extensions, calls).Some?)
      && (o.res.Ok? ==> o.res.value.calls == w.calls + RewriteAll(host, root, path, st.extensions, calls).value)
      && (o.res.Ok? ==> o.st.extensions == Repeat("", NumRequires(calls)) + st.extensions)
    decreases |calls|
  {
    if calls != [] {
      var c := calls[0];
      var rest := calls[1..];
      var o1 := VisitCall(host, root, name, path, st, w, c);
      VisitCallRewrites(host, root, name, path, st, w, c);
      if o1.res.Ok? {
        VisitRewrites(host, root, name, path, o1.st, o1.res.value, rest);
        if c.callee == "require" {
          RewriteAllStable(host, root, path, st.extensions, rest);
          assert Repeat("", 1) == [""];
          RepeatAdd("", NumRequires(rest), 1, st.extensions);
        }
        var r := RewriteAll(host, root, path, st.extensions, rest);
        if r.Some? {
          var x := Rewrite(host, root, path, st.extensions, c).value;
          assert w.calls + [x] + r.value == w.calls + ([x] + r.value);
        }
      }
    }
  }

  lemma CountCons<T>(x: T, s: seq<T>, y: T)
    ensures Count([x] + s, y) == (if x == y then 1 else 0) + Count(s, y)
  {
    assert ([x] + s)[1..] == s;
  }

  /** The dedup rule for one successful call site; `ids` is what it
      resolves to (nothing, or one id for a `require`). */
  lemma VisitCallDedup(host: Host, root: string, name: string, path: string, st: BuildState, w: Walked, c: Call)
    requires NoDup(w.deps)
    requires VisitCall(host, root, name, path, st, w, c).res.Ok?
    ensures var o := VisitCall(host, root, name, path, st, w, c);
      var ids := if c.callee == "require" then [Rewrite(host, root, path, st.extensions, c).value.arg.value] else [];
      && NoDup(o.res.value.deps)
      && w.deps <= o.res.value.deps
      && (forall d :: d in o.res.value.deps <==> d in w.deps || (d in ids && d !in Ids(st.modules)))
      && Ids(o.st.modules) == Ids(st.modules)
      && |o.st.modules| == |st.modules|
      && (forall j :: 0 <= j < |st.modules| ==>
            o.st.modules[j] == st.modules[j].(name := st.modules[j].name + if st.modules[j].id in ids then [name] else []))
  {
    if c.callee != "require" {
      forall j | 0 <= j < |st.modules|
        ensures st.modules[j] == st.modules[j].(name := st.modules[j].name + [])
      {
        assert st.modules[j].name + [] == st.modules[j].name;
      }
    }
  }

  /** The dedup rule over one module's call sites. An id already carried by
      a record of the module list is not pending; instead `name` is pushed
      onto every record with that id, once per call that resolves to it.
      Every other id becomes pending, once however often it is required.
      Ids, dependencies and sources of the records do not change. */
  lemma {:induction false} VisitDedup(host: Host, root: string, name: string, path: string, st: BuildState, w: Walked, calls: seq<Call>)
    requires NoDup(w.deps)
    requires Visit(host, root, name, path, st, w, calls).res.Ok?
    ensures var o := Visit(host, root, name, path, st, w, calls);
      var ids := RequireIds(host, root, path, st.extensions, calls);
      && NoDup(o.res.value.deps)
      && w.deps <= o.res.value.deps
      && (forall d :: d in o.res.value.deps <==> d in w.deps || (d in ids && d !in Ids(st.modules)))
      && |o.st.modules| == |st.modules|
      && (forall j :: 0 <= j < |st.modules| ==>
            o.st.modules[j] == st.modules[j].(name := st.modules[j].name + Repeat(name, Count(ids, st.modules[j].id))))
    decreases |calls|
  {
    var o := Visit(host, root, name, path, st, w, calls);
    var ids := RequireIds(host, root, path, st.extensions, calls);
    if calls == [] {
      forall j | 0 <= j < |st.modules|
        ensures o.st.modules[j] == st.modules[j].(name := st.modules[j].name + Repeat(name, Count(ids, st.modules[j].id)))
      {
        assert st.modules[j].name + [] == st.modules[j].name;
      }
    } else {
      var c := calls[0];
      var rest := calls[1..];
      var o1 := VisitCall(host, root, name, path, st, w, c);
      var w1 := o1.res.value;
      var st1 := o1.st;
      VisitCallDedup(host, root, name, path, st, w, c);
      VisitDedup(host, root, name, path, st1, w1, rest);
      VisitHead(host, root, name, path, st, w, calls);
      assert o == Visit(host, root, name, path, st1, w1, rest);
      var restIds := RequireIds(host, root, path, st1.extensions, rest);
      var head := if c.callee == "require" then [Rewrite(host, root, path, st.extensions, c).value.arg.value] else [];
      if c.callee == "require" {
        RequireIdsStable(host, root, path, st.extensions, rest);
      }
      assert ids == head + restIds;
      forall j | 0 <= j < |st.modules|
        ensures o.st.modules[j] == st.modules[j].(name := st.modules[j].name + Repeat(name, Count(ids, st.modules[j].id)))
      {
        var m := st.modules[j];
        var k := Count(restIds, m.id);
        var m1 := st1.modules[j];
        assert m1 == m.(name := m.name + if m.id in head then [name] else []);
        assert o.st.modules[j] == m1.(name := m1.name + Repeat(name, k));
        if c.callee == "require" {
          assert head == [head[0]];
          CountCons(head[0], restIds, m.id);
        } else {
          assert ids == restIds;
        }
        assert Count(ids, m.id) == if m.id in head then k + 1 else k;
        if m.id in head {
          AppendRepeat(m.name, name, k);
        } else {
          assert m.name + [] == m.name;
        }
      }
    }
  }

  // ------------------------------------------------ tagging by entry name

  /** `after` is `before` grown by builds made for the entry `name`: old
      records keep id, dependencies and source and only gain `name`s, and
      every name on a new record is `name` (a record appended early may
      carry it more than once). */
  ghost predicate Extends(before: seq<ModuleRecord>, after: seq<ModuleRecord>, name: string) {
    && |before| <= |after|
    && (forall j :: 0 <= j < |before| ==>
          && after[j].id == before[j].id
          && after[j].dependencies == before[j].dependencies
          && after[j].source == before[j].source
          && before[j].name <= after[j].name
          && forall k :: |before[j].name| <= k < |after[j].name| ==> after[j].name[k] == name)
    && (forall j :: |before| <= j < |after| ==> forall k :: 0 <= k < |after[j].name| ==> after[j].name[k] == name)
  }

  lemma ExtendsTrans(a: seq<ModuleRecord>, b: seq<ModuleRecord>, c: seq<ModuleRecord>, name: string)
    requires Extends(a, b, name) && Extends(b, c, name)
    ensures Extends(a, c, name)
  {
    forall j | 0 <= j < |a|
      ensures forall k :: |a[j].name| <= k < |c[j].name| ==> c[j].name[k] == name
    {
      forall k | |a[j].name| <= k < |c[j].name|
        ensures c[j].name[k] == name
      {
        if k < |b[j].name| {
          assert c[j].name[k] == b[j].name[k];
        }
      }
    }
  }

  lemma {:induction false} VisitExtends(host: Host, root: string, name: string, path: string, st: BuildState, w: Walked, calls: seq<Call>)
    ensures Extends(st.modules, Visit(host, root, name, path, st, w, calls).st.modules, name)
    decreases |calls|
  {
    if calls != [] {
      var o1 := VisitCall(host, root, name, path, st, w, calls[0]);
      assert Extends(st.modules, o1.st.modules, name);
      if o1.res.Ok? {
        VisitExtends(host, root, name, path, o1.st, o1.res.value, calls[1..]);
        ExtendsTrans(st.modules, o1.st.modules, Visit(host, root, name, path, st, w, calls).st.modules, name);
      }
    }
  }

  /** Every module a build reaches is tagged with the outer entry name: a
      build for `name` grows the module list as Extends says, and the record
      it returns is the fresh one with id ModuleId(path) and names [name]. */
  lemma {:induction false} BuildExtends(host: Host, root: string, rules: seq<Rule>, name: string, path: string, st: BuildState, fuel: nat)
    ensures var b := Build(host, root, rules, name, path, st, fuel);
      && Extends(st.modules, b.st.modules, name)
      && (b.res.Ok? ==> b.res.value.name == [name] && b.res.value.id == ModuleId(host, root, path))
    decreases fuel, 0, 0
  {
    if fuel > 0 && path in host.files {
      var text := host.files[path];
      var st1 := st.(originSourceCode := text, moduleCode := text);
      match MatchedLoaders(rules, path)
      case Err(e) =>
      case Ok(names) =>
        CompileExtends(host, root, rules, name, path, st1.(moduleCode := ApplyLoaders(host.loader, names, text)), fuel - 1);
    }
  }

  lemma {:induction false} CompileExtends(host: Host, root: string, rules: seq<Rule>, name: string, path: string, st: BuildState, depth: nat)
    ensures var b := Compile(host, root, rules, name, path, st, depth);
      && Extends(st.modules, b.st.modules, name)
      && (b.res.Ok? ==> b.res.value.name == [name] && b.res.value.id == ModuleId(host, root, path))
    decreases depth, 2, 0
  {
    match host.parse(st.moduleCode)
    case None =>
    case Some(calls) =>
      var v := Visit(host, root, name, path, st, Walked([], []), calls);
      VisitExtends(host, root, name, path, st, Walked([], []), calls);
      if v.res.Ok? {
        BuildDepsExtends(host, root, rules, name, v.res.value.deps, v.st, depth);
        ExtendsTrans(st.modules, v.st.modules, BuildDeps(host, root, rules, name, v.res.value.deps, v.st, depth).st.modules, name);
      }
  }

  lemma {:induction false} BuildDepsExtends(host: Host, root: string, rules: seq<Rule>, name: string, deps: seq<string>, st: BuildState, depth: nat)
    ensures Extends(st.modules, BuildDeps(host, root, rules, name, deps, st, depth).st.modules, name)
    decreases depth, 1, |deps|
  {
    if deps != [] {
      var b := Build(host, root, rules, name, deps[0], st, depth);
      BuildExtends(host, root, rules, name, deps[0], st, depth);
      if b.res.Ok? {
        var st2 := b.st.(modules := b.st.modules + [b.res.value]);
        assert Extends(b.st.modules, st2.modules, name);
        ExtendsTrans(st.modules, b.st.modules, st2.modules, name);
        BuildDepsExtends(host, root, rules, name, deps[1..], st2, depth);
        ExtendsTrans(st.modules, st2.modules, BuildDeps(host, root, rules, name, deps[1..], st2, depth).st.modules, name);
      }
    }
  }

  /** The dependency loop builds every pending id: when it succeeds, each
      dependency has a record, added by this loop, whose id is the
      dependency's module id. */
  lemma {:induction false} BuildDepsAppends(host: Host, root: string, rules: seq<Rule>, name: string, deps: seq<string>, st: BuildState, depth: nat)
    ensures var o := BuildDeps(host, root, rules, name, deps, st, depth);
      o.res.Ok? ==> forall k :: 0 <= k < |deps| ==>
        exists j :: |st.modules| <= j < |o.st.modules| && o.st.modules[j].id == ModuleId(host, root, deps[k])
    decreases |deps|
  {
    var o := BuildDeps(host, root, rules, name, deps, st, depth);
    if deps != [] && o.res.Ok? {
      var b := Build(host, root, rules, name, deps[0], st, depth);
      BuildExtends(host, root, rules, name, deps[0], st, depth);
      var st2 := b.st.(modules := b.st.modules + [b.res.value]);
      assert o == BuildDeps(host, root, rules, name, deps[1..], st2, depth);
      BuildDepsAppends(host, root, rules, name, deps[1..], st2, depth);
      BuildDepsExtends(host, root, rules, name, deps[1..], st2, depth);
      var first := |b.st.modules|;
      assert st2.modules[first].id == ModuleId(host, root, deps[0]);
      assert o.st.modules[first].id == ModuleId(host, root, deps[0]);
      forall k | 0 <= k < |deps|
        ensures exists j :: |st.modules| <= j < |o.st.modules| && o.st.modules[j].id == ModuleId(host, root, deps[k])
      {
        if k == 0 {
          assert |st.modules| <= first < |o.st.modules|;
        } else {
          assert deps[k] == deps[1..][k - 1];
        }
      }
    }
  }

  /** Builds for one entry do not change which records another entry owns:
      its chunk, formed earlier, is still exactly its filter. */
  lemma OwnedStable(before: seq<ModuleRecord>, after: seq<ModuleRecord>, name: string, other: string)
    requires Extends(before, after, name) && other != name
    ensures Owned(after, other) == Owned(before, other)
  {
    OwnedBelowStable(before, after, name, other, |after|);
  }

  lemma {:induction false} OwnedBelowStable(before: seq<ModuleRecord>, after: seq<ModuleRecord>, name: string, other: string, k: nat)
    requires Extends(before, after, name) && other != name
    requires k <= |after|
    ensures OwnedBelow(after, other, k) == OwnedBelow(before, other, if k <= |before| then k else |before|)
  {
    if k > 0 {
      OwnedBelowStable(before, after, name, other, k - 1);
      NameKept(before, after, name, other, k - 1);
      var below := OwnedBelow(after, other, k - 1);
      if k <= |before| {
        var tail: seq<nat> := if other in before[k - 1].name then [k - 1] else [];
        assert OwnedBelow(after, other, k) == below + tail;
        assert OwnedBelow(before, other, k) == OwnedBelow(before, other, k - 1) + tail;
      } else {
        assert other !in after[k - 1].name;
        assert OwnedBelow(after, other, k) == below + [];
      }
    }
  }

  /** Under Extends, a record carries another entry's name afterwards
      exactly when it already did before. */
  lemma NameKept(before: seq<ModuleRecord>, after: seq<ModuleRecord>, name: string, other: string, j: nat)
    requires Extends(before, after, name) && other != name
    requires j < |after|
    ensures other in after[j].name <==> j < |before| && other in before[j].name
  {
    var m := after[j];
    if other in m.name {
      var t :| 0 <= t < |m.name| && m.name[t] == other;
      assert j < |before| && t < |before[j].name| && before[j].name[t] == other;
    }
    if j < |before| && other in before[j].name {
      var t :| 0 <= t < |before[j].name| && before[j].name[t] == other;
      assert m.name[t] == other;
    }
  }

  /** The entry names, in order. */
  function Names(entry: seq<(string, string)>): seq<string> {
    seq(|entry|, i requires 0 <= i < |entry| => entry[i].0)
  }

  /** Builds for entries other than `other` leave its ownership alone. */
  lemma {:induction false} EntriesKeepOwned(host: Host, root: string, rules: seq<Rule>, entry: seq<(string, string)>,
                                            st: BuildState, fuel: nat, other: string)
    requires forall i :: 0 <= i < |entry| ==> entry[i].0 != other
    ensures Owned(BuildEntries(host, root, rules, entry, st, fuel).st.modules, other) == Owned(st.modules, other)
    decreases |entry|
  {
    if entry != [] {
      var b := Build(host, root, rules, entry[0].0, entry[0].1, st, fuel);
      BuildExtends(host, root, rules, entry[0].0, entry[0].1, st, fuel);
      OwnedStable(st.modules, b.st.modules, entry[0].0, other);
      if b.res.Ok? {
        EntriesKeepOwned(host, root, rules, entry[1..], b.st, fuel, other);
      }
    }
  }

  /** One chunk per entry, in entry order, up to the first failing build.
      With distinct entry names (the keys of an object), each chunk, though
      formed right after its own entry was built, owns exactly the records of
      the final module list that carry its name: later entries never tag an
      earlier entry's records. Its entry record is held apart, with that
      entry's id and its name alone. */
  lemma {:induction false} ChunksExact(host: Host, root: string, rules: seq<Rule>, entry: seq<(string, string)>, st: BuildState, fuel: nat)
    requires NoDup(Names(entry))
    ensures var cs := EntryChunks(host, root, rules, entry, st, fuel);
      var o := BuildEntries(host, root, rules, entry, st, fuel);
      && (o.res.Ok? ==> |o.res.value| == |cs| == |entry| && forall k :: 0 <= k < |cs| ==> cs[k].entryModule == o.res.value[k])
      && (o.res.Err? ==> |cs| < |entry|)
      && forall k :: 0 <= k < |cs| ==>
           && cs[k].name == entry[k].0
           && cs[k].entryModule.name == [entry[k].0]
           && cs[k].entryModule.id == ModuleId(host, root, entry[k].1)
           && cs[k].modules == Owned(o.st.modules, entry[k].0)
    decreases |entry|
  {
    if entry != [] {
      var n0 := entry[0].0;
      var b := Build(host, root, rules, n0, entry[0].1, st, fuel);
      BuildExtends(host, root, rules, n0, entry[0].1, st, fuel);
      if b.res.Ok? {
        var rest := entry[1..];
        assert Names(rest) == Names(entry)[1..];
        forall i | 0 <= i < |rest| ensures rest[i].0 != n0 {
          assert Names(entry)[0] == n0 && Names(entry)[i + 1] == rest[i].0;
        }
        EntriesKeepOwned(host, root, rules, rest, b.st, fuel, n0);
        ChunksExact(host, root, rules, rest, b.st, fuel);
      }
    }
  }

  // ------------------------------------------------ depth and termination

  /** The calls of the file at `path` after reading, loaders and parsing;
      None when any of those fails. */
  function LoadedCalls(host: Host, rules: seq<Rule>, path: string): Option<seq<Call>> {
    if path !in host.files then None
    else
      match MatchedLoaders(rules, path)
      case Err(_) => None
      case Ok(names) => host.parse(ApplyLoaders(host.loader, names, host.files[path]))
  }

  /** Every chain of `require`s from `path`, each dependency read back by its
      id, is shorter than `n`. */
  ghost predicate Bounded(host: Host, root: string, rules: seq<Rule>, base: seq<string>, path: string, n: nat)
    decreases n
  {
    && n > 0
    && match LoadedCalls(host, rules, path)
       case None => true
       case Some(calls) =>
         forall d :: d in RequireIds(host, root, path, base, calls) ==> Bounded(host, root, rules, base, d, n - 1)
  }

  /** An extension list that is `base` after some resolutions. */
  ghost predicate Grown(exts: seq<string>, base: seq<string>) {
    exists k: nat :: exts == Repeat("", k) + base
  }

  lemma GrownMore(exts: seq<string>, base: seq<string>, n: nat)
    requires Grown(exts, base)
    ensures Grown(Repeat("", n) + exts, base)
  {
    var k: nat :| exts == Repeat("", k) + base;
    RepeatAdd("", n, k, base);
  }

  lemma {:induction false} RequireIdsRepeat(host: Host, root: string, path: string, k: nat, base: seq<string>, calls: seq<Call>)
    ensures RequireIds(host, root, path, Repeat("", k) + base, calls) == RequireIds(host, root, path, base, calls)
  {
    if k > 0 {
      var e' := Repeat("", k - 1) + base;
      RepeatAdd("", 1, k - 1, base);
      assert Repeat("", 1) == [""];
      RequireIdsStable(host, root, path, e', calls);
      RequireIdsRepeat(host, root, path, k - 1, base, calls);
    } else {
      assert Repeat("", k) + base == base;
    }
  }

  lemma RequireIdsGrown(host: Host, root: string, path: string, exts: seq<string>, base: seq<string>, calls: seq<Call>)
    requires Grown(exts, base)
    ensures RequireIds(host, root, path, exts, calls) == RequireIds(host, root, path, base, calls)
  {
    var k: nat :| exts == Repeat("", k) + base;
    RequireIdsRepeat(host, root, path, k, base, calls);
  }

  /** The only failure of loader matching is a matching rule with neither a
      loader nor a use list. */
  lemma {:induction false} MatchedLoadersError(rules: seq<Rule>, path: string)
    ensures MatchedLoaders(rules, path).Err? ==> MatchedLoaders(rules, path).error == MissingUse(path)
  {
    if rules != [] {
      MatchedLoadersError(rules[..|rules| - 1], path);
    }
  }

  lemma {:induction false} VisitNoOverflow(host: Host, root: string, name: string, path: string, st: BuildState, w: Walked, calls: seq<Call>)
    ensures Visit(host, root, name, path, st, w, calls).res != Err(StackOverflow)
    decreases |calls|
  {
    if calls != [] {
      var o1 := VisitCall(host, root, name, path, st, w, calls[0]);
      if o1.res.Ok? {
        VisitNoOverflow(host, root, name, path, o1.st, o1.res.value, calls[1..]);
      }
    }
  }

  /** Resolution only ever prepends "" to the extension list, also on the
      call that fails. */
  lemma {:induction false} VisitGrown(host: Host, root: string, name: string, path: string, st: BuildState, w: Walked, calls: seq<Call>, base: seq<string>)
    requires Grown(st.extensions, base)
    ensures Grown(Visit(host, root, name, path, st, w, calls).st.extensions, base)
    decreases |calls|
  {
    if calls != [] {
      var o1 := VisitCall(host, root, name, path, st, w, calls[0]);
      GrownMore(st.extensions, base, 1);
      assert o1.st.extensions == st.extensions || o1.st.extensions == Repeat("", 1) + st.extensions;
      if o1.res.Ok? {
        VisitGrown(host, root, name, path, o1.st, o1.res.value, calls[1..], base);
      }
    }
  }

  /** A build whose dependency chains are shorter than its fuel never runs
      out of stack, whatever else fails. */
  lemma {:induction false} BuildBounded(host: Host, root: string, rules: seq<Rule>, name: string, path: string, st: BuildState, fuel: nat, base: seq<string>)
    requires Bounded(host, root, rules, base, path, fuel)
    requires Grown(st.extensions, base)
    ensures Build(host, root, rules, name, path, st, fuel).res != Err(StackOverflow)
    ensures Grown(Build(host, root, rules, name, path, st, fuel).st.extensions, base)
    decreases fuel, 0, 0
  {
    if path in host.files {
      var text := host.files[path];
      var st1 := st.(originSourceCode := text, moduleCode := text);
      MatchedLoadersError(rules, path);
      match MatchedLoaders(rules, path)
      case Err(e) =>
      case Ok(names) =>
        var st2 := st1.(moduleCode := ApplyLoaders(host.loader, names, text));
        match host.parse(st2.moduleCode)
        case None =>
        case Some(calls) =>
          var v := Visit(host, root, name, path, st2, Walked([], []), calls);
          VisitNoOverflow(host, root, name, path, st2, Walked([], []), calls);
          VisitRewrites(host, root, name, path, st2, Walked([], []), calls);
          VisitGrown(host, root, name, path, st2, Walked([], []), calls, base);
          if v.res.Ok? {
            VisitDedup(host, root, name, path, st2, Walked([], []), calls);
            RequireIdsGrown(host, root, path, st.extensions, base, calls);
            assert LoadedCalls(host, rules, path) == Some(calls);
            DepsBounded(host, root, rules, name, v.res.value.deps, v.st, fuel - 1, base);
            assert Build(host, root, rules, name, path, st, fuel) == Compile(host, root, rules, name, path, st2, fuel - 1);
            assert Compile(host, root, rules, name, path, st2, fuel - 1).st
                == BuildDeps(host, root, rules, name, v.res.value.deps, v.st, fuel - 1).st;
          }
    }
  }

  lemma {:induction false} DepsBounded(host: Host, root: string, rules: seq<Rule>, name: string, deps: seq<string>, st: BuildState, depth: nat, base: seq<string>)
    requires forall d :: d in deps ==> Bounded(host, root, rules, base, d, depth)
    requires Grown(st.extensions, base)
    ensures BuildDeps(host, root, rules, name, deps, st, depth).res != Err(StackOverflow)
    ensures Grown(BuildDeps(host, root, rules, name, deps, st, depth).st.extensions, base)
    decreases depth, 1, |deps|
  {
    if deps != [] {
      BuildBounded(host, root, rules, name, deps[0], st, depth, base);
      var b := Build(host, root, rules, name, deps[0], st, depth);
      if b.res.Ok? {
        DepsBounded(host, root, rules, name, deps[1..], b.st.(modules := b.st.modules + [b.res.value]), depth, base);
      }
    }
  }

  /** A rank on paths that every dependency edge strictly lowers: the graph
      the requires span has no cycle. */
  ghost predicate Ranked(host: Host, root: string, rules: seq<Rule>, base: seq<string>, rank: string -> nat) {
    forall p, d :: LoadedCalls(host, rules, p).Some? && d in RequireIds(host, root, p, base, LoadedCalls(host, rules, p).value)
      ==> rank(d) < rank(p)
  }

  lemma {:induction false} RankedBounded(host: Host, root: string, rules: seq<Rule>, base: seq<string>, rank: string -> nat, path: string, n: nat)
    requires Ranked(host, root, rules, base, rank) && rank(path) < n
    ensures Bounded(host, root, rules, base, path, n)
    decreases n
  {
    match LoadedCalls(host, rules, path)
    case None =>
    case Some(calls) =>
      forall d | d in RequireIds(host, root, path, base, calls)
        ensures Bounded(host, root, rules, base, d, n - 1)
      {
        RankedBounded(host, root, rules, base, rank, d, n - 1);
      }
  }

  /** On an acyclic graph the recursion ends: with fuel above the rank of
      the path, a build finishes, successfully or with an error other than
      running out of stack. */
  lemma AcyclicBuildFinishes(host: Host, root: string, rules: seq<Rule>, name: string, path: string, st: BuildState,
                             rank: string -> nat, fuel: nat)
    requires Ranked(host, root, rules, st.extensions, rank) && rank(path) < fuel
    ensures Build(host, root, rules, name, path, st, fuel).res != Err(StackOverflow)
  {
    RankedBounded(host, root, rules, st.extensions, rank, path, fuel);
    assert st.extensions == Repeat("", 0) + st.extensions;
    BuildBounded(host, root, rules, name, path, st, fuel, st.extensions);
  }

  // ------------------------------------------------- small concrete graphs

  /** One `require` call per id, in order. */
  function Requires(ids: seq<string>): seq<Call> {
    if ids == [] then [] else [Call("require", Some(ids[0]))] + Requires(ids[1..])
  }

  /** A host for a module graph `g` from paths to the paths they require:
      the text of each file is its own path, and the parser reads it back as
      one `require` per edge. Joining keeps the literal and `relative` strips
      the leading "./", so a module's id is its path. */
  function GraphHost(g: map<string, seq<string>>): Host {
    Host(
      map p | p in g :: p,
      g.Keys,
      "/",
      (p: string) => |p| > 0 && p[0] == '/',
      (d: string, r: string) => r,
      (from: string, to: string) => if |to| >= 2 && to[..2] == "./" then to[2..] else to,
      (p: string) => ".",
      (code: string) => if code in g then Some(Requires(g[code])) else None,
      (cs: seq<Call>) => "",
      (n: string) => (code: string) => code)
  }

  predicate Dotted(p: string) {
    |p| >= 2 && p[..2] == "./"
  }

  /** What a build needs of a host that serves graph `g` as `GraphHost`
      does: each module's text is its path and parses to one `require` per
      edge, joining keeps the literal, a dotted path is its own id, and the
      printer prints nothing. */
  ghost predicate GraphLike(h: Host, g: map<string, seq<string>>) {
    && (forall p :: p in g ==> p in h.files && h.files[p] == p && h.parse(p) == Some(Requires(g[p])))
    && h.existing == g.Keys
    && (forall d, r :: h.join(d, r) == r)
    && (forall p :: Dotted(p) ==> h.relative("/", p) == p[2..])
    && (forall cs :: h.generate(cs) == "")
  }

  lemma GraphHostIsGraphLike(g: map<string, seq<string>>)
    ensures GraphLike(GraphHost(g), g)
  {
  }

  /** One `require` of a present module in a graph host. */
  lemma GraphVisitCall(g: map<string, seq<string>>, h: Host, name: string, path: string, st: BuildState, w: Walked, other: string)
    requires GraphLike(h, g)
    requires other in g && Dotted(other)
    ensures var o := VisitCall(h, "/", name, path, st, w, Call("require", Some(other)));
      && o.res == Ok(Walked(w.calls + [Call(WebpackRequire, Some(other))],
                            if other in w.deps || other in Ids(st.modules) then w.deps else w.deps + [other]))
      && o.st == st.(extensions := [""] + st.extensions,
                     modules := if other in Ids(st.modules) then PushName(st.modules, other, name) else st.modules)
  {
    var host := h;
    assert host.join(host.dirname(path), other) == other;
    assert other + "" == other;
    assert FirstExisting(other, [""] + st.extensions, host.existing) == Some(other);
    assert "./" + other[2..] == other;
    assert ModuleId(host, "/", other) == other;
  }

  /** Reading and loading in a graph host with no rules: the code is the path. */
  lemma GraphLoad(g: map<string, seq<string>>, h: Host, path: string)
    requires GraphLike(h, g)
    requires path in g
    ensures MatchedLoaders([], path) == Ok([])
    ensures ApplyLoaders(h.loader, [], h.files[path]) == path
    ensures h.parse(path) == Some(Requires(g[path]))
  {
  }

  /** `deps` with each of `ids` appended unless already there. */
  function AddNew(deps: seq<string>, ids: seq<string>): seq<string>
    decreases |ids|
  {
    if ids == [] then deps else AddNew(if ids[0] in deps then deps else deps + [ids[0]], ids[1..])
  }

  /** The visitor takes the first call site, then the rest. */
  lemma VisitHead(host: Host, root: string, name: string, path: string, st: BuildState, w: Walked, calls: seq<Call>)
    requires calls != []
    ensures var o := VisitCall(host, root, name, path, st, w, calls[0]);
      Visit(host, root, name, path, st, w, calls)
        == if o.res.Err? then Out(o.st, Err(o.res.error)) else Visit(host, root, name, path, o.st, o.res.value, calls[1..])
  {
  }

  /** The first require of a fresh id: it becomes pending and one "" goes
      to the head of the extension list. */
  lemma FreshStep(g: map<string, seq<string>>, h: Host, name: string, path: string, st: BuildState, w: Walked, ids: seq<string>)
    requires GraphLike(h, g)
    requires ids != [] && ids[0] in g && Dotted(ids[0]) && ids[0] !in Ids(st.modules)
    ensures Visit(h, "/", name, path, st, w, Requires(ids))
         == Visit(h, "/", name, path, st.(extensions := [""] + st.extensions),
                  Walked(w.calls + [Call(WebpackRequire, Some(ids[0]))], if ids[0] in w.deps then w.deps else w.deps + [ids[0]]),
                  Requires(ids[1..]))
  {
    var calls := Requires(ids);
    assert calls[0] == Call("require", Some(ids[0]));
    assert calls[1..] == Requires(ids[1..]);
    GraphVisitCall(g, h, name, path, st, w, ids[0]);
    VisitHead(h, "/", name, path, st, w, calls);
  }

  /** Visiting requires of present modules none of which has a record yet:
      they become pending in order, and the module list is untouched. */
  lemma {:induction false} GraphVisitFresh(g: map<string, seq<string>>, h: Host, name: string, path: string, st: BuildState, w: Walked, ids: seq<string>)
    requires GraphLike(h, g)
    requires forall d :: d in ids ==> d in g && Dotted(d) && d !in Ids(st.modules)
    ensures var o := Visit(h, "/", name, path, st, w, Requires(ids));
      && o.res.Ok? && o.res.value.deps == AddNew(w.deps, ids)
      && o.st == st.(extensions := Repeat("", |ids|) + st.extensions)
    decreases |ids|
  {
    if ids != [] {
      FreshStep(g, h, name, path, st, w, ids);
      var st1 := st.(extensions := [""] + st.extensions);
      var w1 := Walked(w.calls + [Call(WebpackRequire, Some(ids[0]))], if ids[0] in w.deps then w.deps else w.deps + [ids[0]]);
      assert AddNew(w.deps, ids) == AddNew(w1.deps, ids[1..]);
      assert forall d :: d in ids[1..] ==> d in ids;
      GraphVisitFresh(g, h, name, path, st1, w1, ids[1..]);
      assert Repeat("", 1) == [""];
      RepeatAdd("", |ids| - 1, 1, st.extensions);
    } else {
      assert Requires(ids) == [];
      assert Repeat("", 0) + st.extensions == st.extensions;
    }
  }

  /** A module of a graph host whose requires have no record yet: it is
      read, its requires become pending, and they are built in order. */
  lemma GraphBuild(g: map<string, seq<string>>, h: Host, name: string, path: string, st: BuildState, fuel: nat)
    requires GraphLike(h, g)
    requires path in g && Dotted(path) && fuel >= 1
    requires forall d :: d in g[path] ==> d in g && Dotted(d) && d !in Ids(st.modules)
    ensures var deps := AddNew([], g[path]);
      var v := st.(originSourceCode := path, moduleCode := path, extensions := Repeat("", |g[path]|) + st.extensions);
      var d := BuildDeps(h, "/", [], name, deps, v, fuel - 1);
      Build(h, "/", [], name, path, st, fuel)
        == Out(d.st, if d.res.Err? then Err(d.res.error) else Ok(ModuleRecord(path, deps, [name], "")))
  {
    GraphLoad(g, h, path);
    assert "./" + path[2..] == path;
    assert ModuleId(h, "/", path) == path;
    var st1 := st.(originSourceCode := path, moduleCode := path);
    GraphVisitFresh(g, h, name, path, st1, Walked([], []), g[path]);
  }

  /** A module with no requires is built in one level. */
  lemma GraphLeaf(g: map<string, seq<string>>, h: Host, name: string, path: string, st: BuildState, fuel: nat)
    requires GraphLike(h, g)
    requires path in g && g[path] == [] && Dotted(path) && fuel >= 1
    ensures Build(h, "/", [], name, path, st, fuel).res == Ok(ModuleRecord(path, [], [name], ""))
    ensures Build(h, "/", [], name, path, st, fuel).st.modules == st.modules
  {
    GraphBuild(g, h, name, path, st, fuel);
  }

  /** A module whose one require is a leaf, when neither has a record yet:
      the leaf's record is appended and then the module's is returned. */
  lemma GraphChain(g: map<string, seq<string>>, h: Host, name: string, path: string, leaf: string, st: BuildState, fuel: nat)
    requires GraphLike(h, g)
    requires path in g && leaf in g && Dotted(path) && Dotted(leaf) && fuel >= 2
    requires g[path] == [leaf] && g[leaf] == [] && leaf !in Ids(st.modules)
    ensures var o := Build(h, "/", [], name, path, st, fuel);
      && o.res == Ok(ModuleRecord(path, [leaf], [name], ""))
      && o.st.modules == st.modules + [ModuleRecord(leaf, [], [name], "")]
  {
    assert AddNew([], [leaf]) == AddNew([leaf], []) == [leaf];
    GraphBuild(g, h, name, path, st, fuel);
    var v := st.(originSourceCode := path, moduleCode := path, extensions := Repeat("", 1) + st.extensions);
    GraphLeaf(g, h, name, leaf, v, fuel - 1);
    var b := Build(h, "/", [], name, leaf, v, fuel - 1);
    var rec := ModuleRecord(path, [leaf], [name], "");
    OneDep(h, "/", [], name, path, leaf, st, v, fuel, rec);
    assert Build(h, "/", [], name, path, st, fuel) == Out(b.st.(modules := st.modules + [b.res.value]), Ok(rec));
  }


  /** The pending list [b, c] of the diamond below: b's build appends c's
      record, b's own record follows, then c is built again. */
  lemma DiamondDeps(g: map<string, seq<string>>, h: Host, b: string, c: string, st: BuildState, fuel: nat)
    requires GraphLike(h, g)
    requires fuel >= 2 && b in g && c in g && Dotted(b) && Dotted(c)
    requires g[b] == [c] && g[c] == [] && st.modules == []
    ensures var d := BuildDeps(h, "/", [], "main", [b, c], st, fuel);
      d.res.Ok? && Ids(d.st.modules) == [c, b, c]
  {
    var host := h;
    GraphChain(g, h, "main", b, c, st, fuel);
    var bb := Build(host, "/", [], "main", b, st, fuel);
    var s2 := bb.st.(modules := bb.st.modules + [bb.res.value]);
    GraphLeaf(g, h, "main", c, s2, fuel);
    var bc := Build(host, "/", [], "main", c, s2, fuel);
    var s3 := bc.st.(modules := bc.st.modules + [bc.res.value]);
    assert [b, c][1..] == [c] && [c][1..] == [];
    assert BuildDeps(host, "/", [], "main", [c], s2, fuel) == BuildDeps(host, "/", [], "main", [], s3, fuel);
    assert s3.modules == [ModuleRecord(c, [], ["main"], ""), bb.res.value, bc.res.value];
  }

  /** A diamond: a requires b and c, and b requires c. The dedup check runs
      before c's record exists, so c is built twice and the module list ends
      with two records for it, in the order the builds return. */
  lemma DiamondBuildsTwice(g: map<string, seq<string>>, h: Host, a: string, b: string, c: string, st: BuildState, fuel: nat)
    requires GraphLike(h, g)
    requires fuel >= 3 && a in g && b in g && c in g && Dotted(a) && Dotted(b) && Dotted(c) && b != c
    requires g[a] == [b, c] && g[b] == [c] && g[c] == []
    requires st.modules == []
    ensures var o := Build(h, "/", [], "main", a, st, fuel);
      o.res.Ok? && Ids(o.st.modules) == [c, b, c]
  {
    assert [b, c][1..] == [c] && [c][1..] == [] && [b] + [c] == [b, c];
    assert AddNew([b, c], []) == [b, c];
    var none: seq<string> := [];
    assert none + [b] == [b] && b !in none;
    assert AddNew(none, [b, c]) == AddNew([b], [c]) == [b, c];
    GraphBuild(g, h, "main", a, st, fuel);
    var va := st.(originSourceCode := a, moduleCode := a, extensions := Repeat("", 2) + st.extensions);
    DiamondDeps(g, h, b, c, va, fuel - 1);
  }

  /** An entry whose one require is already in the module list: it pushes
      `name` onto that record and builds nothing. */
  lemma GraphRevisit(g: map<string, seq<string>>, h: Host, name: string, path: string, dep: string, st: BuildState, fuel: nat)
    requires GraphLike(h, g)
    requires path in g && dep in g && Dotted(path) && Dotted(dep) && fuel >= 1
    requires g[path] == [dep] && dep in Ids(st.modules)
    ensures var o := Build(h, "/", [], name, path, st, fuel);
      && o.res == Ok(ModuleRecord(path, [], [name], ""))
      && o.st.modules == PushName(st.modules, dep, name)
  {
    var host := h;
    GraphLoad(g, h, path);
    var s1 := st.(originSourceCode := path, moduleCode := path);
    var calls := Requires(g[path]);
    assert calls == [Call("require", Some(dep))] && calls[1..] == [];
    GraphVisitCall(g, h, name, path, s1, Walked([], []), dep);
    var o1 := VisitCall(host, "/", name, path, s1, Walked([], []), calls[0]);
    assert o1.res.Ok? && o1.res.value.deps == [];
    var v := Visit(host, "/", name, path, s1, Walked([], []), calls);
    assert v == Visit(host, "/", name, path, o1.st, o1.res.value, []);
    assert v.res.value.deps == [] && v.st.modules == PushName(st.modules, dep, name);
    assert "./" + path[2..] == path;
    assert ModuleId(host, "/", path) == path;
    assert host.parse(s1.moduleCode) == Some(calls);
    assert Build(host, "/", [], name, path, st, fuel) == Compile(host, "/", [], name, path, s1, fuel - 1);
    assert host.generate(v.res.value.calls) == "";
    assert BuildDeps(host, "/", [], name, v.res.value.deps, v.st, fuel - 1) == Out(v.st, Ok(()));
  }

  /** Two entries share a module m, and m requires n. The first entry builds
      m and n under its name; when the second entry reaches m, m is already
      in the list, so only m gets the second name: n is never attributed to
      the second entry, and the second chunk leaves n out. */
  lemma SharedSubtreeUntagged(g: map<string, seq<string>>, h: Host, one: string, two: string, m: string, n: string, st: BuildState, fuel: nat)
    requires GraphLike(h, g)
    requires fuel >= 3 && one in g && two in g && m in g && n in g && Dotted(one) && Dotted(two) && Dotted(m) && Dotted(n)
    requires g[one] == [m] && g[two] == [m] && g[m] == [n] && g[n] == [] && m != n
    requires st.modules == []
    ensures var o := BuildEntries(h, "/", [], [("one", one), ("two", two)], st, fuel);
      && o.res.Ok?
      && Ids(o.st.modules) == [n, m]
      && o.st.modules[0].name == ["one"]
      && o.st.modules[1].name == ["one", "two"]
      && Owned(o.st.modules, "two") == [1]
  {
    var host := h;
    var rn := ModuleRecord(n, [], ["one"], "");
    var rm := ModuleRecord(m, [n], ["one"], "");
    FirstEntryBuildsChain(g, h, one, m, n, st, fuel);
    var b1 := Build(host, "/", [], "one", one, st, fuel);
    assert Ids(b1.st.modules) == [n, m];
    GraphRevisit(g, h, "two", two, m, b1.st, fuel);
    var b2 := Build(host, "/", [], "two", two, b1.st, fuel);
    var mm := rm.(name := ["one", "two"]);
    SharePushed(rn, rm, m, n);
    TwoEntries(host, "/", [], ("one", one), ("two", two), st, fuel);
    OwnedAfterShare(rn, mm, n, m);
  }

  /** Pushing the second name onto the shared record. */
  lemma SharePushed(rn: ModuleRecord, rm: ModuleRecord, m: string, n: string)
    requires rn == ModuleRecord(n, [], ["one"], "") && rm == ModuleRecord(m, [n], ["one"], "") && m != n
    ensures PushName([rn, rm], m, "two") == [rn, rm.(name := ["one", "two"])]
  {
    var pushed := PushName([rn, rm], m, "two");
    assert |pushed| == 2 && pushed[0] == rn && pushed[1] == rm.(name := ["one", "two"]);
  }

  /** Two entries that both build: the outcome is the second build's state
      and both records in order. */
  lemma TwoEntries(host: Host, root: string, rules: seq<Rule>, e1: (string, string), e2: (string, string), st: BuildState, fuel: nat)
    requires Build(host, root, rules, e1.0, e1.1, st, fuel).res.Ok?
    requires Build(host, root, rules, e2.0, e2.1, Build(host, root, rules, e1.0, e1.1, st, fuel).st, fuel).res.Ok?
    ensures var b1 := Build(host, root, rules, e1.0, e1.1, st, fuel);
      var b2 := Build(host, root, rules, e2.0, e2.1, b1.st, fuel);
      BuildEntries(host, root, rules, [e1, e2], st, fuel) == Out(b2.st, Ok([b1.res.value, b2.res.value]))
  {
    var b1 := Build(host, root, rules, e1.0, e1.1, st, fuel);
    var b2 := Build(host, root, rules, e2.0, e2.1, b1.st, fuel);
    var entries := [e1, e2];
    assert entries[0] == e1 && entries[1..] == [e2] && [e2][0] == e2 && [e2][1..] == [];
    assert BuildEntries(host, root, rules, [], b2.st, fuel) == Out(b2.st, Ok([]));
    assert [b2.res.value] + [] == [b2.res.value];
    assert BuildEntries(host, root, rules, [e2], b1.st, fuel) == Out(b2.st, Ok([b2.res.value]));
    assert [b1.res.value] + [b2.res.value] == [b1.res.value, b2.res.value];
  }

  lemma OwnedAfterShare(rn: ModuleRecord, mm: ModuleRecord, n: string, m: string)
    requires rn == ModuleRecord(n, [], ["one"], "") && mm == ModuleRecord(m, [n], ["one", "two"], "")
    ensures Ids([rn, mm]) == [n, m] && Owned([rn, mm], "two") == [1]
  {
    assert OwnedBelow([rn, mm], "two", 1) == [];
  }

  lemma FirstEntryBuildsChain(g: map<string, seq<string>>, h: Host, one: string, m: string, n: string, st: BuildState, fuel: nat)
    requires GraphLike(h, g)
    requires fuel >= 3 && one in g && m in g && n in g && Dotted(one) && Dotted(m) && Dotted(n)
    requires g[one] == [m] && g[m] == [n] && g[n] == [] && m != n && st.modules == []
    ensures var o := Build(h, "/", [], "one", one, st, fuel);
      o.res.Ok? && o.st.modules == [ModuleRecord(n, [], ["one"], ""), ModuleRecord(m, [n], ["one"], "")]
  {
    var host := h;
    assert [m][1..] == [];
    assert AddNew([], [m]) == AddNew([m], []) == [m];
    GraphBuild(g, h, "one", one, st, fuel);
    var v1 := st.(originSourceCode := one, moduleCode := one, extensions := Repeat("", 1) + st.extensions);
    GraphChain(g, h, "one", m, n, v1, fuel - 1);
    var bm := Build(host, "/", [], "one", m, v1, fuel - 1);
    assert BuildDeps(host, "/", [], "one", [m], v1, fuel - 1)
        == BuildDeps(host, "/", [], "one", [], bm.st.(modules := bm.st.modules + [bm.res.value]), fuel - 1);
  }

  /** A build that comes down to building one pending id: it fails as that
      build fails, and otherwise returns its record with the dependency's
      record appended to the list. */
  lemma OneDep(host: Host, root: string, rules: seq<Rule>, name: string, path: string, other: string,
               st: BuildState, v: BuildState, fuel: nat, rec: ModuleRecord)
    requires fuel > 0
    requires var d := BuildDeps(host, root, rules, name, [other], v, fuel - 1);
      Build(host, root, rules, name, path, st, fuel) == Out(d.st, if d.res.Err? then Err(d.res.error) else Ok(rec))
    ensures var b := Build(host, root, rules, name, other, v, fuel - 1);
      && (b.res.Err? ==> Build(host, root, rules, name, path, st, fuel).res == b.res)
      && (b.res.Ok? ==> Build(host, root, rules, name, path, st, fuel) == Out(b.st.(modules := b.st.modules + [b.res.value]), Ok(rec)))
  {
    var b := Build(host, root, rules, name, other, v, fuel - 1);
    assert [other][0] == other && [other][1..] == [];
    if b.res.Ok? {
      var s2 := b.st.(modules := b.st.modules + [b.res.value]);
      assert BuildDeps(host, root, rules, name, [], s2, fuel - 1) == Out(s2, Ok(()));
    }
  }

  /** The state a module of a graph host with one require is compiled in. */
  function Loaded(st: BuildState, path: string): BuildState {
    st.(originSourceCode := path, moduleCode := path, extensions := Repeat("", 1) + st.extensions)
  }

  /** Building `path` comes down to building its one require `other`. */
  ghost predicate DefersTo(host: Host, name: string, path: string, other: string, st: BuildState, fuel: nat) {
    fuel > 0 ==>
      var d := BuildDeps(host, "/", [], name, [other], Loaded(st, path), fuel - 1);
      Build(host, "/", [], name, path, st, fuel) == Out(d.st, if d.res.Err? then Err(d.res.error) else Ok(ModuleRecord(path, [other], [name], "")))
  }

  /** Two modules each of which defers to the other, as long as neither
      has a record, overflow the stack whatever its depth. */
  lemma {:induction false} MutualDeferralOverflows(host: Host, name: string, a: string, b: string, path: string, st: BuildState, fuel: nat)
    requires path == a || path == b
    requires a !in Ids(st.modules) && b !in Ids(st.modules)
    requires forall s: BuildState, f: nat :: a !in Ids(s.modules) && b !in Ids(s.modules) ==>
      DefersTo(host, name, a, b, s, f) && DefersTo(host, name, b, a, s, f)
    ensures Build(host, "/", [], name, path, st, fuel).res == Err(StackOverflow)
    decreases fuel
  {
    if fuel == 0 {
      assert Build(host, "/", [], name, path, st, 0).res == Err(StackOverflow);
    } else {
      var other := if path == a then b else a;
      assert DefersTo(host, name, path, other, st, fuel);
      MutualDeferralOverflows(host, name, a, b, other, Loaded(st, path), fuel - 1);
      OneDep(host, "/", [], name, path, other, st, Loaded(st, path), fuel, ModuleRecord(path, [other], [name], ""));
    }
  }

  /** Two modules that require each other. Since the dedup check only sees
      records whose build has returned, neither record is ever in the list
      when the other is visited, and the build recurses until the stack runs
      out, whatever the depth the stack allows. */
  lemma CycleOverflows(g: map<string, seq<string>>, h: Host, a: string, b: string, name: string, path: string, st: BuildState, fuel: nat)
    requires GraphLike(h, g)
    requires a in g && b in g && Dotted(a) && Dotted(b)
    requires g[a] == [b] && g[b] == [a]
    requires path == a || path == b
    requires a !in Ids(st.modules) && b !in Ids(st.modules)
    ensures Build(h, "/", [], name, path, st, fuel).res == Err(StackOverflow)
  {
    assert AddNew([], [a]) == AddNew([a], []) == [a];
    assert AddNew([], [b]) == AddNew([b], []) == [b];
    forall s: BuildState, f: nat | a !in Ids(s.modules) && b !in Ids(s.modules)
      ensures DefersTo(h, name, a, b, s, f) && DefersTo(h, name, b, a, s, f)
    {
      if f > 0 {
        GraphBuild(g, h, name, a, s, f);
        GraphBuild(g, h, name, b, s, f);
      }
    }
    MutualDeferralOverflows(h, name, a, b, path, st, fuel);
  }

}
