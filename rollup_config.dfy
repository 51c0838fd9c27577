/**
 The JavaScript bundler configuration: the production switch, the output options it
 selects, the plugin list it trims, and the `html` plugin's template that turns the
 emitted JS chunks into the JSON manifest read back by the partial builder.
 */
module RollupConfig {

  import opened Wrappers

  /** The one value of `NODE_ENV` that turns production mode on. */
  const ProductionMode := "production"

  /** Production mode: the environment's NODE_ENV is strictly equal to the production value; an unset variable is not production. */
  function IsProduction(env: map<string, string>): bool
  {
    "NODE_ENV" in env && env["NODE_ENV"] == ProductionMode
  }

  /** The comparison is exact: only the value "production" switches the mode on, and an unset variable leaves it off. */
  lemma ProductionIsExactMatch(env: map<string, string>, v: string)
    ensures IsProduction(env["NODE_ENV" := v]) <==> v == "production"
    ensures !IsProduction(env - {"NODE_ENV"})
    ensures !IsProduction(env["NODE_ENV" := "Production"]) && !IsProduction(env["NODE_ENV" := "production "])
  {
    assert "Production" != ProductionMode by { assert "Production"[0] != ProductionMode[0]; }
    assert "production " != ProductionMode by { assert |"production "| != |ProductionMode|; }
  }

  /** True iff `pattern` holds rollup's `[hash]` placeholder somewhere. */
  predicate HasHashPlaceholder(pattern: string)
  {
    exists i | 0 <= i <= |pattern| :: PlaceholderAt(pattern, i)
  }

  /** True iff `[hash]` starts at offset `i` of `pattern`. */
  predicate PlaceholderAt(pattern: string, i: int)
  {
    0 <= i && i + 6 <= |pattern| && pattern[i..i + 6] == "[hash]"
  }

  /** The value of `sourcemap`: `false` or `'inline'`. */
  datatype Sourcemap = NoSourcemap | InlineSourcemap

  /** The `output` block of the configuration. */
  datatype OutputOptions = OutputOptions(
    format: string,
    name: string,
    dir: string,
    entryFileNames: string,
    sourcemap: Sourcemap)

  /** The entry file name pattern: the bundle name, with rollup's hash placeholder inserted only in production mode. */
  function EntryFileNames(production: bool): (pattern: string)
    ensures pattern == if production then "bundle.[hash].js" else "bundle.js"
    ensures |pattern| >= 9 && pattern[..6] == "bundle" && pattern[|pattern| - 3..] == ".js"
    ensures HasHashPlaceholder(pattern) <==> production
  {
    var pattern := "bundle" + (if production then ".[hash]" else "") + ".js";
    PlaceholderPosition(production, pattern);
    pattern
  }

  /** "bundle.[hash].js" holds the placeholder at offset 7; "bundle.js" has no '[' at all. */
  lemma PlaceholderPosition(production: bool, pattern: string)
    requires pattern == "bundle" + (if production then ".[hash]" else "") + ".js"
    ensures HasHashPlaceholder(pattern) <==> production
  {
    if production {
      assert PlaceholderAt(pattern, 7);
    } else {
      forall i ensures !PlaceholderAt(pattern, i) {
        if 0 <= i && i + 6 <= |pattern| {
          assert pattern[i..i + 6][0] == pattern[i] != '[';
        }
      }
    }
  }

  /** The source-map mode: none in production mode, inlined into the bundle otherwise. */
  function SourcemapFor(production: bool): (s: Sourcemap)
    ensures s == NoSourcemap <==> production
  {
    if production then NoSourcemap else InlineSourcemap
  }

  /** The output options the configuration selects for the given mode. */
  function Output(production: bool): (out: OutputOptions)
    ensures out.format == "iife" && out.name == "app" && out.dir == "cms/web/assets/js"
    ensures out.entryFileNames == EntryFileNames(production)
    ensures HasHashPlaceholder(out.entryFileNames) <==> production
    ensures out.sourcemap == InlineSourcemap <==> !production
  {
    OutputOptions("iife", "app", "cms/web/assets/js", EntryFileNames(production), SourcemapFor(production))
  }

  /** The plugins the configuration names. */
  datatype Plugin = Resolve | CommonJs | Buble | Strip | Terser | Html

  /** The plugin array as written: each production-only slot holds `false` (None) outside production mode. */
  function PluginSlots(production: bool): seq<Option<Plugin>>
  {
    [Some(Resolve), Some(CommonJs), Some(Buble)]
    + if production then [Some(Strip), Some(Terser), Some(Html)] else [None, None, None]
  }

  /** The plugins rollup runs: the slots with the falsy ones dropped, in their order. */
  function Active(slots: seq<Option<Plugin>>): (plugins: seq<Plugin>)
    ensures |plugins| <= |slots|
  {
    if slots == [] then []
    else match slots[0]
      case Some(p) => [p] + Active(slots[1..])
      case None => Active(slots[1..])
  }

  /** The active plugins: resolution, CommonJS and Bublé always; stripping, minifying and the manifest writer only in production. */
  function Plugins(production: bool): (plugins: seq<Plugin>)
    ensures |plugins| >= 3 && plugins[..3] == [Resolve, CommonJs, Buble]
    ensures Strip in plugins <==> production
    ensures Terser in plugins <==> production
    ensures Html in plugins <==> production
  {
    ActiveSlots(production);
    Active(PluginSlots(production))
  }

  /** A plugin runs iff some slot holds it. */
  lemma {:induction false} ActiveKeepsExactlyTheGivenPlugins(slots: seq<Option<Plugin>>, p: Plugin)
    ensures p in Active(slots) <==> Some(p) in slots
  {
    if slots != [] {
      ActiveKeepsExactlyTheGivenPlugins(slots[1..], p);
      assert slots == [slots[0]] + slots[1..];
    }
  }

  /** Dropping the falsy slots of a concatenation drops them from each part. */
  lemma {:induction false} ActiveAppend(a: seq<Option<Plugin>>, b: seq<Option<Plugin>>)
    ensures Active(a + b) == Active(a) + Active(b)
  {
    if a == [] {
      assert a + b == b;
    } else {
      assert (a + b)[0] == a[0];
      assert (a + b)[1..] == a[1..] + b;
      ActiveAppend(a[1..], b);
    }
  }

  /** The plugin list rollup runs in each mode, spelled out. */
  lemma ActiveSlots(production: bool)
    ensures Active(PluginSlots(production))
      == [Resolve, CommonJs, Buble] + if production then [Strip, Terser, Html] else []
  {
    var always: seq<Option<Plugin>> := [Some(Resolve), Some(CommonJs), Some(Buble)];
    var rest: seq<Option<Plugin>> := if production then [Some(Strip), Some(Terser), Some(Html)] else [None, None, None];
    ActiveAppend(always, rest);
    assert Active(always) == [Resolve, CommonJs, Buble] by {
      assert always[1..] == [Some(CommonJs), Some(Buble)];
      assert always[1..][1..] == [Some(Buble)];
      assert always[1..][1..][1..] == [];
    }
    assert rest[1..] == [rest[1], rest[2]];
    assert rest[1..][1..] == [rest[2]];
    assert rest[1..][1..][1..] == [];
    if production {
      assert Active(rest[1..][1..]) == [Html];
      assert Active(rest[1..]) == [Terser, Html];
      assert Active(rest) == [Strip, Terser, Html];
    } else {
      assert Active(rest[1..][1..]) == [];
      assert Active(rest[1..]) == [];
      assert Active(rest) == [];
    }
  }

  /** An emitted file as the template sees it: its output file name and its chunk name. */
  datatype OutputFile = OutputFile(fileName: string, name: string)

  /** The emitted JS files, or none when the bundle has no `js` group. */
  function JsFiles(files: map<string, seq<OutputFile>>): seq<OutputFile>
  {
    if "js" in files then files["js"] else []
  }

  /** The chunk names of a list of emitted files. */
  function Names(fs: seq<OutputFile>): set<string>
  {
    set f | f in fs :: f.name
  }

  /** The manifest the template's loop builds from `fs`: each file in turn sets its name's entry. */
  function Manifest(fs: seq<OutputFile>, publicPath: string): map<string, string>
  {
    if fs == [] then map[]
    else
      var last := fs[|fs| - 1];
      Manifest(fs[..|fs| - 1], publicPath)[last.name := publicPath + last.fileName]
  }

  /** The index of the last file named `k`, or -1 when no file has that name. */
  function LastIndex(fs: seq<OutputFile>, k: string): (i: int)
    ensures -1 <= i < |fs|
    ensures i >= 0 <==> k in Names(fs)
    ensures i >= 0 ==> fs[i].name == k
    ensures forall j :: i < j < |fs| ==> fs[j].name != k
  {
    if fs == [] then -1
    else if fs[|fs| - 1].name == k then |fs| - 1
    else
      var init := fs[..|fs| - 1];
      assert Names(fs) == Names(init) + {fs[|fs| - 1].name} by {
        assert fs == init + [fs[|fs| - 1]];
      }
      LastIndex(init, k)
  }

  /** Names of a list that grows by one file. */
  lemma NamesSnoc(fs: seq<OutputFile>)
    requires fs != []
    ensures Names(fs) == Names(fs[..|fs| - 1]) + {fs[|fs| - 1].name}
  {
    assert fs == fs[..|fs| - 1] + [fs[|fs| - 1]];
  }

  /**
   An independent reading of the manifest: its keys are exactly the names of the files,
   and each key maps to the public path followed by the file name of the LAST file with
   that name.
   */
  lemma {:induction false} ManifestIsLastWriterWins(fs: seq<OutputFile>, publicPath: string)
    ensures Manifest(fs, publicPath).Keys == Names(fs)
    ensures forall k :: k in Names(fs) ==>
      Manifest(fs, publicPath)[k] == publicPath + fs[LastIndex(fs, k)].fileName
  {
    if fs != [] {
      var init, last := fs[..|fs| - 1], fs[|fs| - 1];
      ManifestIsLastWriterWins(init, publicPath);
      NamesSnoc(fs);
      forall k | k in Names(fs)
        ensures Manifest(fs, publicPath)[k] == publicPath + fs[LastIndex(fs, k)].fileName
      {
        if k != last.name {
          assert LastIndex(fs, k) == LastIndex(init, k);
        }
      }
    }
  }

  /** With no `js` group the manifest is empty, whatever else was emitted. */
  lemma NoJsFilesGiveEmptyManifest(files: map<string, seq<OutputFile>>, publicPath: string)
    requires "js" !in files
    ensures Manifest(JsFiles(files), publicPath) == map[]
  {
  }

  /**
   The `html` plugin's template callback, before its result is serialised: starts from an
   empty object and, for each emitted JS file in order, sets the entry for its name to the public path
   followed by the file name; files of any other kind are not looked at.
   */
  method Template(files: map<string, seq<OutputFile>>, publicPath: string) returns (json: map<string, string>)
    ensures json == Manifest(JsFiles(files), publicPath)
    ensures "js" !in files ==> json == map[]
    ensures json.Keys == Names(JsFiles(files))
    ensures forall k :: k in json ==>
      json[k] == publicPath + JsFiles(files)[LastIndex(JsFiles(files), k)].fileName
  {
    var js := JsFiles(files);
    json := map[];
    for i := 0 to |js|
      invariant json == Manifest(js[..i], publicPath)
    {
      assert js[..i + 1][..i] == js[..i];
      json := json[js[i].name := publicPath + js[i].fileName];
    }
    assert js[..|js|] == js;
    ManifestIsLastWriterWins(js, publicPath);
  }

  /** Two emitted files under one name: the later one's path is what the manifest keeps. */
  lemma LaterFileOverwritesEarlier(a: OutputFile, b: OutputFile, publicPath: string)
    requires a.name == b.name
    ensures Manifest([a, b], publicPath) == map[a.name := publicPath + b.fileName]
  {
    assert [a, b][..1] == [a];
    assert [a][..0] == [];
    assert Manifest([a], publicPath) == map[a.name := publicPath + a.fileName];
    assert Manifest([a, b], publicPath) == Manifest([a], publicPath)[b.name := publicPath + b.fileName];
  }

}
