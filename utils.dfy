/**
 * The helpers of core/utils/index.js: separator normalisation, extension
 * resolution against the file system, and the bundle text template.
 */
module Utils {
  import opened Types

  // ---------------------------------------------------------------- toUnixPath

  /** `path.replace(/\\/g, "/")` on a string. */
  function ReplaceBackslashes(s: string): (r: string)
    ensures |r| == |s| && '\\' !in r
    ensures forall i :: 0 <= i < |s| && s[i] != '\\' ==> r[i] == s[i]
    ensures forall i :: 0 <= i < |s| && s[i] == '\\' ==> r[i] == '/'
  {
    if s == [] then [] else [if s[0] == '\\' then '/' else s[0]] + ReplaceBackslashes(s[1..])
  }

  /** toUnixPath: `None` stands for an argument that is not a string
      (undefined, null, a number); it and the empty string give "". */
  function ToUnixPath(p: Option<string>): (r: string)
    ensures p.None? ==> r == ""
    ensures p.Some? ==> |r| == |p.value| && '\\' !in r
    ensures p.Some? ==> forall i :: 0 <= i < |r| ==> r[i] == (if p.value[i] == '\\' then '/' else p.value[i])
  {
    if p.None? || p.value == "" then "" else ReplaceBackslashes(p.value)
  }

  /** A path with no backslash is left as it is. */
  lemma {:induction false} ReplaceBackslashesFixes(s: string)
    requires '\\' !in s
    ensures ReplaceBackslashes(s) == s
  {
    if s != [] {
      ReplaceBackslashesFixes(s[1..]);
    }
  }

  /** Normalising twice is normalising once. */
  lemma ToUnixPathIdempotent(p: Option<string>)
    ensures ToUnixPath(Some(ToUnixPath(p))) == ToUnixPath(p)
  {
    var r := ToUnixPath(p);
    if r != "" {
      ReplaceBackslashesFixes(r);
    }
  }

  // ------------------------------------------------------------- tryExtensions

  /** The first `modulePath + ext`, over `exts` in order, that exists. */
  function FirstExisting(modulePath: string, exts: seq<string>, existing: set<string>): (r: Option<string>)
    ensures r.Some? ==> r.value in existing
    ensures r.Some? ==> exists k :: 0 <= k < |exts| && r.value == modulePath + exts[k]
                          && forall j :: 0 <= j < k ==> modulePath + exts[j] !in existing
    ensures r.None? <==> forall k :: 0 <= k < |exts| ==> modulePath + exts[k] !in existing
  {
    if exts == [] then None
    else if modulePath + exts[0] in existing then Some(modulePath + exts[0])
    else
      var r := FirstExisting(modulePath, exts[1..], existing);
      assert forall k :: 1 <= k < |exts| ==> exts[k] == exts[1..][k - 1];
      r
  }

  /** tryExtensions. `extensions` is the caller's array: the method returns
      it as it is after the `unshift("")` that every call performs, whether
      or not a candidate exists. When none exists the function throws; the
      message refers to an undeclared variable, so what is thrown is a
      ReferenceError. `requirePath` and `moduleContext` only feed that
      message. */
  method TryExtensions(modulePath: string, extensions: seq<string>, requirePath: string, moduleContext: string,
                       existing: set<string>)
    returns (extended: seq<string>, r: Result<string>)
    ensures extended == [""] + extensions
    ensures r.Ok? <==> FirstExisting(modulePath, extended, existing).Some?
    ensures r.Ok? ==> r.value == FirstExisting(modulePath, extended, existing).value
    ensures r.Err? ==> r.error == ReferenceError("originModulePath")
  {
    extended := [""] + extensions;
    var i := 0;
    while i < |extended|
      invariant 0 <= i <= |extended|
      invariant forall j :: 0 <= j < i ==> modulePath + extended[j] !in existing
    {
      if modulePath + extended[i] in existing {
        r := Ok(modulePath + extended[i]);
        return;
      }
      i := i + 1;
    }
    r := Err(ReferenceError("originModulePath"));
  }

  /** An existing exact path is preferred over every suffixed one. */
  lemma ExactPathWins(modulePath: string, extensions: seq<string>, existing: set<string>)
    requires modulePath in existing
    ensures FirstExisting(modulePath, [""] + extensions, existing) == Some(modulePath)
  {
    assert modulePath + "" == modulePath;
  }

  /** The empty strings that earlier calls left at the head of the list do not
      change what a later call resolves to. */
  lemma {:induction false} LeadingEmptiesHarmless(modulePath: string, k: nat, extensions: seq<string>, existing: set<string>)
    ensures FirstExisting(modulePath, Repeat("", k) + [""] + extensions, existing)
         == FirstExisting(modulePath, [""] + extensions, existing)
  {
    if k > 0 {
      var tail := Repeat("", k - 1) + [""] + extensions;
      assert Repeat("", k) + [""] + extensions == [""] + tail;
      assert ([""] + tail)[1..] == tail;
      assert modulePath + "" == modulePath;
      LeadingEmptiesHarmless(modulePath, k - 1, extensions, existing);
      if modulePath !in existing {
        assert FirstExisting(modulePath, [""] + tail, existing) == FirstExisting(modulePath, tail, existing);
      }
    }
  }

  // ------------------------------------------------------------- renderRequire

  const BundleHead: string := "(() => {\n    var __webpack_modules__ = {\n      "
  const BundleShim: string :=
    "\n    };\n    \n    var __webpack_module_cache__ = {};\n\n"
    + "    function __webpack_require__(moduleId) {\n"
    + "      var cacheModule = __webpack_module_cache__[moduleId]\n"
    + "      if(void 0 !== cacheModule) return cacheModule.exports\n"
    + "      var module = (__webpack_module_cache__[moduleId] = {\n"
    + "        exports: {}\n"
    + "      })\n"
    + "      __webpack_modules__[moduleId](module, module.exports, __webpack_require__)\n"
    + "      // \U{8fd4}\U{56de} module \U{4e2d}\U{7684} module.exports \U{5bf9}\U{8c61}\n"
    + "      return module.exports\n"
    + "    }\n    \n    (() => {\n      "
  const BundleTail: string := "\n    })()\n  })()"

  /** One property of the emitted registry object. */
  function RegistryEntry(m: ModuleRecord): string {
    "'" + m.id + "': module => { " + m.source + " }"
  }

  /** The registry entries of `ms`, joined with ",". */
  function RegistryText(ms: seq<ModuleRecord>): string
  {
    if ms == [] then ""
    else if |ms| == 1 then RegistryEntry(ms[0])
    else RegistryText(ms[..|ms| - 1]) + "," + RegistryEntry(ms[|ms| - 1])
  }

  /** renderRequire, on the destructured chunk. */
  function RenderRequire(name: string, entryModule: ModuleRecord, modules: seq<ModuleRecord>): string {
    BundleHead + RegistryText(modules) + BundleShim + entryModule.source + BundleTail
  }

  /** The registry lists the chunk's modules in chunk order: the text up to
      and including the entry of module i is the text of the first i modules
      followed by that entry, and it begins the whole registry. */
  lemma {:induction false} RegistryInOrder(ms: seq<ModuleRecord>, i: nat)
    requires i < |ms|
    ensures RegistryText(ms[..i + 1]) == (if i == 0 then "" else RegistryText(ms[..i]) + ",") + RegistryEntry(ms[i])
    ensures RegistryText(ms[..i + 1]) <= RegistryText(ms)
    decreases |ms| - i
  {
    assert ms[..i + 1][..i] == ms[..i];
    if i + 1 < |ms| {
      RegistryInOrder(ms, i + 1);
      assert ms[..i + 2][..i + 1] == ms[..i + 1];
    } else {
      assert ms[..i + 1] == ms;
    }
  }

  /** The bundle depends on the modules' ids and sources only, so entry names
      appended to a record after its chunk was formed do not change it. */
  lemma {:induction false} RenderIgnoresNames(name: string, e: ModuleRecord, a: seq<ModuleRecord>, b: seq<ModuleRecord>)
    requires |a| == |b|
    requires forall i :: 0 <= i < |a| ==> a[i].id == b[i].id && a[i].source == b[i].source
    ensures RenderRequire(name, e, a) == RenderRequire(name, e, b)
  {
    RegistryTextIgnoresNames(a, b);
  }

  lemma {:induction false} RegistryTextIgnoresNames(a: seq<ModuleRecord>, b: seq<ModuleRecord>)
    requires |a| == |b|
    requires forall i :: 0 <= i < |a| ==> a[i].id == b[i].id && a[i].source == b[i].source
    ensures RegistryText(a) == RegistryText(b)
  {
    if |a| > 1 {
      RegistryTextIgnoresNames(a[..|a| - 1], b[..|b| - 1]);
    }
  }
}
