/**
 * The `webpack(options)` front end: command-line `--key=value` tokens
 * override the configuration object, and each plugin of the merged
 * `plugins` array is applied to the compiler in array order.
 */
module Webpack {
  import opened Types
  import opened Compilation

  // ------------------------------------------------------- splitting on '='

  /** `s.split("=")`: the pieces between the separators, at least one. */
  function Split(s: string): (r: seq<string>)
    ensures |r| >= 1
  {
    if s == [] then [""]
    else if s[0] == '=' then [""] + Split(s[1..])
    else
      var t := Split(s[1..]);
      [[s[0]] + t[0]] + t[1..]
  }

  /** `parts.join("=")`. */
  function Join(parts: seq<string>): string
    requires |parts| >= 1
  {
    if |parts| == 1 then parts[0] else parts[0] + "=" + Join(parts[1..])
  }

  /** Splitting loses nothing: joining the pieces back gives the token. */
  lemma {:induction false} SplitJoin(s: string)
    ensures Join(Split(s)) == s
  {
    if s != [] {
      SplitJoin(s[1..]);
      var t := Split(s[1..]);
      var r := Split(s);
      if s[0] == '=' {
        assert r[1..] == t;
        assert s == "=" + s[1..];
      } else {
        assert r[0] == [s[0]] + t[0] && r[1..] == t[1..];
        if |t| > 1 {
          assert Join(r) == r[0] + "=" + Join(t[1..]);
          assert Join(t) == t[0] + "=" + Join(t[1..]);
        }
        assert s == [s[0]] + s[1..];
      }
    }
  }

  /** No piece contains a separator. */
  lemma {:induction false} SplitPiecesPlain(s: string)
    ensures forall k :: 0 <= k < |Split(s)| ==> '=' !in Split(s)[k]
  {
    if s != [] {
      SplitPiecesPlain(s[1..]);
      var t := Split(s[1..]);
      var r := Split(s);
      if s[0] == '=' {
        assert r[1..] == t;
      } else {
        assert r[0] == [s[0]] + t[0];
        forall k | 0 < k < |r|
          ensures '=' !in r[k]
        {
          assert r[k] == t[k];
        }
      }
    }
  }

  // -------------------------------------------------- one argv token

  /** `key.slice(2)`: the key without its first two characters ("" when it
      is shorter). */
  function Slice2(key: string): string {
    if |key| >= 2 then key[2..] else ""
  }

  /** One argv token: split on '=', the first two pieces are the key and
      the value; it contributes only when both are non-empty, under the key
      without its leading two characters. */
  function ParseToken(token: string): Option<(string, string)> {
    var parts := Split(token);
    if parts[0] != "" && |parts| >= 2 && parts[1] != "" then Some((Slice2(parts[0]), parts[1]))
    else None
  }

  /** The longest prefix of `s` with no '='. */
  function UpToEq(s: string): (r: string)
    ensures r <= s && '=' !in r
    ensures |r| < |s| ==> s[|r|] == '='
  {
    if s == [] || s[0] == '=' then "" else [s[0]] + UpToEq(s[1..])
  }

  lemma {:induction false} SplitHead(s: string)
    ensures Split(s)[0] == UpToEq(s)
    ensures |Split(s)| >= 2 <==> '=' in s
    ensures '=' in s ==> Split(s)[1..] == Split(s[|UpToEq(s)| + 1..])
  {
    if s != [] {
      SplitHead(s[1..]);
      if s[0] == '=' {
        assert s[1..] == s[|UpToEq(s)| + 1..];
      } else {
        assert '=' in s <==> '=' in s[1..];
        if '=' in s {
          assert s[|UpToEq(s)| + 1..] == s[1..][|UpToEq(s[1..])| + 1..];
        }
      }
    }
  }

  /** A token counts exactly when it has text before its first '=' and text
      right after it; the value stops at the next '='. */
  lemma TokenByFirstSeparator(token: string)
    ensures var key := UpToEq(token);
      ParseToken(token) ==
        if |key| == |token| then None
        else
          var value := UpToEq(token[|key| + 1..]);
          if key == "" || value == "" then None else Some((Slice2(key), value))
  {
    SplitHead(token);
    var key := UpToEq(token);
    if |key| < |token| {
      assert '=' in token by { assert token[|key|] == '='; }
      SplitHead(token[|key| + 1..]);
    } else {
      assert key == token;
    }
  }

  /** A token with no '=' adds nothing, however it starts. */
  lemma NoSeparatorIgnored(token: string)
    requires '=' !in token
    ensures ParseToken(token) == None
  {
    TokenByFirstSeparator(token);
  }

  /** "--mode=a=b" sets `mode` to "a": text after a second '=' is dropped. */
  lemma SecondSeparatorDrops()
    ensures ParseToken("--mode=a=b") == Some(("mode", "a"))
  {
    var t := "--mode=a=b";
    assert UpToEq(t[7..]) == "a" by {
      assert t[7..] == "a=b";
      assert UpToEq("a=b") == "a" + UpToEq("=b");
    }
    assert UpToEq(t) == "--mode" by {
      assert UpToEq(t[6..]) == "";
    }
    TokenByFirstSeparator(t);
  }

  // ------------------------------------------------------ the reduce fold

  /** The reduce over the tokens: each contributing token sets its key. */
  function Collect(tokens: seq<string>): map<string, string>
  {
    if tokens == [] then map[]
    else
      var acc := Collect(tokens[..|tokens| - 1]);
      match ParseToken(tokens[|tokens| - 1])
      case None => acc
      case Some(kv) => acc[kv.0 := kv.1]
  }

  /** The shell options: the reduce over argv from index 2 on (index 0 is
      the runtime, index 1 the script). */
  function ShellOptions(argv: seq<string>): map<string, string> {
    if |argv| <= 2 then map[] else Collect(argv[2..])
  }

  /** Token `i` contributes, and no later token contributes its key. */
  predicate LastFor(tokens: seq<string>, i: int) {
    && 0 <= i < |tokens| && ParseToken(tokens[i]).Some?
    && forall j :: i < j < |tokens| ==> ParseToken(tokens[j]).None? || ParseToken(tokens[j]).value.0 != ParseToken(tokens[i]).value.0
  }

  /** A key is set exactly when some token contributes it. */
  lemma {:induction false} CollectKeys(tokens: seq<string>)
    ensures forall key :: key in Collect(tokens) <==>
      exists i :: 0 <= i < |tokens| && ParseToken(tokens[i]).Some? && ParseToken(tokens[i]).value.0 == key
  {
    if tokens != [] {
      var init := tokens[..|tokens| - 1];
      var n := |tokens| - 1;
      CollectKeys(init);
      forall key | key in Collect(tokens)
        ensures exists i :: 0 <= i < |tokens| && ParseToken(tokens[i]).Some? && ParseToken(tokens[i]).value.0 == key
      {
        if ParseToken(tokens[n]).None? || ParseToken(tokens[n]).value.0 != key {
          assert key in Collect(init);
          var i :| 0 <= i < |init| && ParseToken(init[i]).Some? && ParseToken(init[i]).value.0 == key;
          assert tokens[i] == init[i];
        }
      }
      forall key, i | 0 <= i < |tokens| && ParseToken(tokens[i]).Some? && ParseToken(tokens[i]).value.0 == key
        ensures key in Collect(tokens)
      {
        if i < n {
          assert init[i] == tokens[i];
        }
      }
    }
  }

  /** A key's value is the one of the last token that contributes it. */
  lemma {:induction false} CollectLastWins(tokens: seq<string>)
    ensures forall i :: LastFor(tokens, i) ==>
      var kv := ParseToken(tokens[i]).value;
      kv.0 in Collect(tokens) && Collect(tokens)[kv.0] == kv.1
  {
    if tokens != [] {
      var init := tokens[..|tokens| - 1];
      var n := |tokens| - 1;
      CollectLastWins(init);
      CollectKeys(init);
      forall i | LastFor(tokens, i)
        ensures var kv := ParseToken(tokens[i]).value;
          kv.0 in Collect(tokens) && Collect(tokens)[kv.0] == kv.1
      {
        if i < n {
          assert init[i] == tokens[i];
          assert forall j :: i < j < n ==> init[j] == tokens[j];
          assert LastFor(init, i);
        }
      }
    }
  }

  /** A token before index 2 never counts. */
  lemma ShellSkipsFirstTwo(a: string, b: string, rest: seq<string>)
    ensures ShellOptions([a, b] + rest) == Collect(rest)
  {
    if rest != [] {
      assert ([a, b] + rest)[2..] == rest;
    }
  }

  // ------------------------------------------------------------ the merge

  /** A configuration value: text (what every shell value is), a plugin
      list, or any other value, known only by identity. */
  datatype ConfigValue = Text(text: string) | Plugins(plugins: PluginsOption) | Other(tag: nat)

  /** `{ ...options, ...shellOptions }`. */
  function MergeOptions(config: map<string, ConfigValue>, argv: seq<string>): (r: map<string, ConfigValue>)
  {
    var shell := ShellOptions(argv);
    config + map k | k in shell :: Text(shell[k])
  }

  /** Shell keys win over configuration keys; every other configuration key
      keeps its value, and no other key appears. */
  lemma MergeOverrides(config: map<string, ConfigValue>, argv: seq<string>)
    ensures var shell := ShellOptions(argv);
      var r := MergeOptions(config, argv);
      && r.Keys == config.Keys + shell.Keys
      && (forall k :: k in shell ==> r[k] == Text(shell[k]))
      && (forall k :: k in config && k !in shell ==> r[k] == config[k])
  {
  }

  /** The `plugins` value the front end hands to the plugin loader: whatever
      the merged options hold under "plugins". */
  function MergedPlugins(merged: map<string, ConfigValue>): PluginsOption {
    if "plugins" in merged && merged["plugins"].Plugins? then merged["plugins"].plugins else NotAnArray
  }

  /** A `--plugins=...` token turns the plugin list into text, which is not
      an array, so no plugin is applied. */
  lemma ShellPluginsDisable(config: map<string, ConfigValue>, argv: seq<string>)
    requires "plugins" in ShellOptions(argv)
    ensures MergedPlugins(MergeOptions(config, argv)) == NotAnArray
  {
    MergeOverrides(config, argv);
  }

  // ---------------------------------------------------- applying plugins

  /** The taps plugins register, in application order. */
  function PluginTaps(plugins: seq<Plugin>): seq<Tap> {
    if plugins == [] then [] else PluginTaps(plugins[..|plugins| - 1]) + plugins[|plugins| - 1].taps
  }

  /** One Applied(i) per plugin, for i from `from`. */
  function Applications(from: nat, n: nat): (r: seq<Event>)
    decreases n
  {
    if n == 0 then [] else [Applied(from)] + Applications(from + 1, n - 1)
  }

  /** Every plugin is applied once, in array order. */
  lemma {:induction false} ApplicationsInOrder(from: nat, n: nat)
    ensures |Applications(from, n)| == n
    ensures forall i :: 0 <= i < n ==> Applications(from, n)[i] == Applied(from + i)
    decreases n
  {
    if n > 0 {
      ApplicationsInOrder(from + 1, n - 1);
      var r := Applications(from, n);
      forall i | 0 < i < n
        ensures r[i] == Applied(from + i)
      {
        assert r[i] == Applications(from + 1, n - 1)[i - 1];
      }
    }
  }

  lemma {:induction false} ApplicationsSnoc(n: nat)
    ensures Applications(0, n + 1) == Applications(0, n) + [Applied(n)]
  {
    ApplicationsInOrder(0, n);
    ApplicationsInOrder(0, n + 1);
    assert Applications(0, n + 1) == Applications(0, n) + [Applied(n)];
  }

  /** `_loaderPlugin`: when `plugins` is an array, apply each plugin to the
      compiler in array order, registering its taps; otherwise do nothing. */
  method LoadPlugins(plugins: PluginsOption, compiler: Compiler)
    modifies compiler`taps, compiler`trace
    ensures plugins.NotAnArray? ==> compiler.taps == old(compiler.taps) && compiler.trace == old(compiler.trace)
    ensures plugins.PluginArray? ==>
      && compiler.taps == old(compiler.taps) + PluginTaps(plugins.list)
      && compiler.trace == old(compiler.trace) + Applications(0, |plugins.list|)
  {
    if plugins.PluginArray? {
      var list := plugins.list;
      var i := 0;
      while i < |list|
        invariant 0 <= i <= |list|
        invariant compiler.taps == old(compiler.taps) + PluginTaps(list[..i])
        invariant compiler.trace == old(compiler.trace) + Applications(0, i)
      {
        assert list[..i + 1][..i] == list[..i];
        ApplicationsSnoc(i);
        compiler.trace := compiler.trace + [Applied(i)];
        compiler.taps := compiler.taps + list[i].taps;
        i := i + 1;
      }
      assert list[..|list|] == list;
    }
  }

  /** `webpack(options)`: merge the shell options into the configuration,
      make the compiler from the options it reads, and apply the merged
      plugin list to it. */
  method Webpack(host: Host, config: map<string, ConfigValue>, argv: seq<string>, options: Options)
    returns (merged: map<string, ConfigValue>, compiler: Compiler)
    ensures merged == MergeOptions(config, argv)
    ensures fresh(compiler) && compiler.options == options && compiler.host == host
    ensures compiler.taps == PluginTaps(if MergedPlugins(merged).PluginArray? then MergedPlugins(merged).list else [])
    ensures compiler.trace == Applications(0, if MergedPlugins(merged).PluginArray? then |MergedPlugins(merged).list| else 0)
  {
    merged := MergeOptions(config, argv);
    compiler := new Compiler(host, options);
    LoadPlugins(MergedPlugins(merged), compiler);
  }
}
