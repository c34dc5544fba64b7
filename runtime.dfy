/**
 * What the bundle emitted by renderRequire does when it runs, kept at the
 * level of module ids and cached module records: the registry maps each id to its
 * factory, and `__webpack_require__` consults a cache that it fills BEFORE
 * it calls the factory. A factory is seen through the ids it requires, in
 * order; the `{ exports: {} }` record the cache holds for an id is a
 * numbered handle.
 */
module Runtime {
  import opened Types

  /** The registry object literal: one property per chunk record, keyed by
      id. An id given twice keeps the later property, as in any object
      literal. */
  function Registry(ms: seq<ModuleRecord>): map<string, string>
  {
    if ms == [] then map[]
    else Registry(ms[..|ms| - 1])[ms[|ms| - 1].id := ms[|ms| - 1].source]
  }

  /** The registry has a property for exactly the ids of the records, and
      that property holds the source of the last record with the id. */
  lemma {:induction false} RegistryLastWins(ms: seq<ModuleRecord>)
    ensures forall id :: id in Registry(ms) <==> exists i :: 0 <= i < |ms| && ms[i].id == id
    ensures forall i :: 0 <= i < |ms| && (forall j :: i < j < |ms| ==> ms[j].id != ms[i].id) ==>
      Registry(ms)[ms[i].id] == ms[i].source
  {
    if ms != [] {
      var init := ms[..|ms| - 1];
      RegistryLastWins(init);
      forall id | id in Registry(ms)
        ensures exists i :: 0 <= i < |ms| && ms[i].id == id
      {
        if id != ms[|ms| - 1].id {
          assert id in Registry(init);
          var i :| 0 <= i < |init| && init[i].id == id;
          assert ms[i].id == id;
        }
      }
      forall i | 0 <= i < |ms| - 1
        ensures ms[i] == init[i]
      {
      }
    }
  }

  /** The factories of a registry: for each id, the ids its source requires
      when it runs, in order (`reqs` reads them off the source text). */
  function Factories(registry: map<string, string>, reqs: string -> seq<string>): (r: map<string, seq<string>>)
    ensures r.Keys == registry.Keys
  {
    map id | id in registry :: reqs(registry[id])
  }

  /** The shim's state: the module cache (id to the handle of its module record), the next
      fresh handle, and the ids whose factory has been called, in call
      order. */
  datatype Shim = Shim(cache: map<string, nat>, next: nat, invoked: seq<string>)

  /** The state of the shim when the bundle starts. */
  const Start: Shim := Shim(map[], 0, [])

  /** The outcome of a call: the returned handle or the error, and the
      shim's state after it. */
  datatype Step = Step(res: Result<nat>, shim: Shim)

  /** Ids with a factory that are not cached yet. */
  function Uncached(factories: map<string, seq<string>>, s: Shim): set<string> {
    factories.Keys - s.cache.Keys
  }

  /** The state a call stands in once it has cached `id`: cache entries
      already made never change, and handles only grow. */
  ghost predicate Grows(s: Shim, t: Shim) {
    && s.cache.Keys <= t.cache.Keys
    && (forall id :: id in s.cache ==> t.cache[id] == s.cache[id])
    && s.next <= t.next
    && s.invoked <= t.invoked
  }

  /** `__webpack_require__(id)`: a cached id returns its handle at once;
      otherwise a fresh handle is cached first, then the factory runs (its
      own requires, in order), and the fresh handle is returned. An id
      with no factory is cached and then fails, as calling `undefined`
      does. */
  function Require(factories: map<string, seq<string>>, id: string, s: Shim): (r: Step)
    ensures Grows(s, r.shim)
    ensures r.res.Ok? ==> id in r.shim.cache && r.shim.cache[id] == r.res.value
    ensures id in r.shim.cache
    decreases Uncached(factories, s), 0
  {
    if id in s.cache then Step(Ok(s.cache[id]), s)
    else
      var h := s.next;
      var s1 := s.(cache := s.cache[id := h], next := h + 1);
      if id !in factories then Step(Err(NotAFunction(id)), s1)
      else
        assert Uncached(factories, s1) < Uncached(factories, s) by {
          assert id in Uncached(factories, s) && id !in Uncached(factories, s1);
        }
        var body := RequireAll(factories, factories[id], s1.(invoked := s1.invoked + [id]));
        Step(if body.res.Err? then body.res else Ok(h), body.shim)
  }

  /** The requires of one factory body, in order; the first failure is
      thrown out of the body. */
  function RequireAll(factories: map<string, seq<string>>, ids: seq<string>, s: Shim): (r: Step)
    ensures Grows(s, r.shim)
    ensures r.res.Ok? ==> forall k :: 0 <= k < |ids| ==> ids[k] in r.shim.cache
    decreases Uncached(factories, s), |ids| + 1
  {
    if ids == [] then Step(Ok(0), s)
    else
      var first := Require(factories, ids[0], s);
      if first.res.Err? then first
      else
        var rest := RequireAll(factories, ids[1..], first.shim);
        assert forall k :: 1 <= k < |ids| ==> ids[k] == ids[1..][k - 1];
        rest
  }

  /** Running the bundle: the entry module's source runs outside the
      registry, requiring its ids in order. */
  function RunBundle(entryModule: ModuleRecord, modules: seq<ModuleRecord>, reqs: string -> seq<string>): Step {
    RequireAll(Factories(Registry(modules), reqs), reqs(entryModule.source), Start)
  }

  // ------------------------------------------------------------ invariants

  /** Every invoked id has a factory and is cached, no factory has been
      called twice, and distinct ids hold distinct handles, all below
      `next`. */
  ghost predicate Valid(factories: map<string, seq<string>>, s: Shim) {
    && (forall k :: 0 <= k < |s.invoked| ==> s.invoked[k] in s.cache && s.invoked[k] in factories)
    && NoDup(s.invoked)
    && (forall id :: id in s.cache ==> s.cache[id] < s.next)
    && (forall a, b :: a in s.cache && b in s.cache && a != b ==> s.cache[a] != s.cache[b])
  }


  /** Caching a fresh handle and invoking the factory of an uncached id
      keeps the shim valid. */
  lemma CacheFresh(factories: map<string, seq<string>>, s: Shim, id: string)
    requires Valid(factories, s) && id !in s.cache
    ensures var s1 := s.(cache := s.cache[id := s.next], next := s.next + 1);
      Valid(factories, s1) && (id in factories ==> Valid(factories, s1.(invoked := s1.invoked + [id])))
  {
    var s1 := s.(cache := s.cache[id := s.next], next := s.next + 1);
    var s2 := s1.(invoked := s1.invoked + [id]);
    assert id !in s.invoked;
    forall i, j | 0 <= i < j < |s2.invoked|
      ensures s2.invoked[i] != s2.invoked[j]
    {
      if j == |s.invoked| {
        assert s2.invoked[i] == s.invoked[i];
      } else {
        assert s2.invoked[i] == s.invoked[i] && s2.invoked[j] == s.invoked[j];
      }
    }
  }

  /** The shim stays valid however requires nest: each factory is called
      at most once, and every cached module record belongs to one id only. */
  lemma {:induction false} RequireValid(factories: map<string, seq<string>>, id: string, s: Shim)
    requires Valid(factories, s)
    ensures Valid(factories, Require(factories, id, s).shim)
    decreases Uncached(factories, s), 0
  {
    if id !in s.cache {
      var s1 := s.(cache := s.cache[id := s.next], next := s.next + 1);
      CacheFresh(factories, s, id);
      if id in factories {
        assert id in Uncached(factories, s) && id !in Uncached(factories, s1);
        RequireAllValid(factories, factories[id], s1.(invoked := s1.invoked + [id]));
      }
    }
  }

  lemma {:induction false} RequireAllValid(factories: map<string, seq<string>>, ids: seq<string>, s: Shim)
    requires Valid(factories, s)
    ensures Valid(factories, RequireAll(factories, ids, s).shim)
    decreases Uncached(factories, s), |ids| + 1
  {
    if ids != [] {
      RequireValid(factories, ids[0], s);
      var first := Require(factories, ids[0], s);
      if first.res.Ok? {
        RequireAllValid(factories, ids[1..], first.shim);
      }
    }
  }

  /** A whole run of the bundle calls only factories of the registry, each
      at most once, and gives distinct modules distinct cached module records. */
  lemma RunBundleOnce(entryModule: ModuleRecord, modules: seq<ModuleRecord>, reqs: string -> seq<string>)
    ensures var s := RunBundle(entryModule, modules, reqs).shim;
      && NoDup(s.invoked)
      && (forall k :: 0 <= k < |s.invoked| ==> s.invoked[k] in Registry(modules))
      && (forall a, b :: a in s.cache && b in s.cache && a != b ==> s.cache[a] != s.cache[b])
  {
    var factories := Factories(Registry(modules), reqs);
    assert Valid(factories, Start);
    RequireAllValid(factories, reqs(entryModule.source), Start);
  }

  /** Cache before factory: the first require of an id returns the handle
      that was fresh when it started, and every id its factory reaches,
      itself included, is cached by then; so a cycle back to it returns
      that same handle instead of running the factory again. */
  lemma FirstRequireFresh(factories: map<string, seq<string>>, id: string, s: Shim)
    requires id !in s.cache
    ensures var r := Require(factories, id, s);
      && r.shim.cache[id] == s.next
      && (r.res.Ok? ==> r.res.value == s.next)
      && (id in factories ==> |r.shim.invoked| > |s.invoked| && r.shim.invoked[|s.invoked|] == id)
  {
  }

  /** Requiring an id a second time returns the handle of the first time
      and changes nothing. */
  lemma RequireTwice(factories: map<string, seq<string>>, id: string, s: Shim)
    ensures var r := Require(factories, id, s);
      r.res.Ok? ==> Require(factories, id, r.shim) == Step(r.res, r.shim)
  {
  }

  /** Two modules that require each other: the entry's require of `a` runs
      `a`'s factory, which runs `b`'s, whose require of `a` is answered from
      the cache; both factories run exactly once and the bundle finishes. */
  lemma {:induction false} MutualRequireFinishes(a: string, b: string)
    requires a != b
    ensures var factories := map[a := [b], b := [a]];
      Require(factories, a, Start) == Step(Ok(0), Shim(map[a := 0, b := 1], 2, [a, b]))
  {
    var factories := map[a := [b], b := [a]];
    var s1 := Shim(map[a := 0], 1, [a]);
    var s2 := Shim(map[a := 0, b := 1], 2, [a, b]);
    assert s1.cache[b := 1] == s2.cache;
    assert s1.invoked + [b] == s2.invoked;
    assert Require(factories, a, s2) == Step(Ok(0), s2);
    assert RequireAll(factories, [a], s2) == Step(Ok(0), s2);
    assert Require(factories, b, s1) == Step(Ok(1), s2);
    assert RequireAll(factories, [b], s1) == Step(Ok(0), s2);
    assert Start.cache[a := 0] == s1.cache && Start.invoked + [a] == s1.invoked;
  }

  /** A require of an id without a factory fails, and leaves that id
      cached: a later require of it returns its cached module record. */
  lemma MissingFactory(factories: map<string, seq<string>>, id: string, s: Shim)
    requires id !in s.cache && id !in factories
    ensures var r := Require(factories, id, s);
      && r.res == Err(NotAFunction(id))
      && Require(factories, id, r.shim).res == Ok(s.next)
  {
  }
}
