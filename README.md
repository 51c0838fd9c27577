# Asset-manifest pipeline of the CraftCMS site scaffold

This project models the one piece of self-contained logic in the site scaffold: the
front-end asset pipeline that links hashed build outputs into the CMS templates.

- `rollup_config.dfy` (module `RollupConfig`) models `rollup.config.js`. It covers the
  production switch read from `NODE_ENV`, the output options that switch selects (the entry
  file name pattern with or without `[hash]`, and the source-map mode), and the plugin list,
  in which the production-only slots drop out of development builds. It also covers
  the `html` plugin's `template` callback, which walks the emitted JS files and builds the
  JS manifest (chunk name ↦ public path + file name). That callback is a method whose loop
  runs over the sequence of emitted JS files and updates a `map`. It is proved equal to a
  fold (`Manifest`). `Manifest` is in turn proved equal to an
  independent "last file with that name wins" definition.
- `build_to_html.dfy` (module `BuildToHtml`) models `scripts/build-to-html.js`. A parsed
  manifest is a sequence of (logical name, hashed file name) pairs in `Object.keys` order.
  `toLinkTags` and `toScriptTags` turn each value into a fixed tag template. The partial's
  text is the tags joined with `"\n"` plus a trailing `"\n"`. The two writes of the script
  are a pure update of a path ↦ text map.
- `strings.dfy` (modules `Wrappers`, `Strings`) holds `Option` and the two JavaScript string
  operations the pipeline relies on: `Array.prototype.join` and, as the reader-side
  partner, `String.prototype.split`, both with a one-character separator. It proves
  `split(join(parts)) == parts` for separator-free, non-empty part lists, and
  `join(split(s)) == s` for every string.

## Model

| member | source | states |
|---|---|---|
| `BuildToHtml.Tag` | scripts/build-to-html.js:18-28 | A tag is the kind's fixed opening text, then the hashed file name, then the fixed closing text. The file name can be parsed back out of the tag (`Target`). The tag holds a newline iff the file name does. |
| `BuildToHtml.Tags` | scripts/build-to-html.js:18-28 | There is one tag per manifest entry. The i-th tag is built from the i-th entry's value, so tag order is key order. |
| `BuildToHtml.ToLinkTags` | scripts/build-to-html.js:18-22 | There are as many link tags as entries. The i-th is exactly `<link rel="stylesheet" href="/assets/css/` + i-th value + `">`. |
| `BuildToHtml.ToScriptTags` | scripts/build-to-html.js:24-28 | There are as many script tags as entries. The i-th is exactly `<script defer src="/assets/js/` + i-th value + `"></script>`. |
| `BuildToHtml.TagCountIsKeyCount` | scripts/build-to-html.js:19 | For a manifest with distinct keys (any JS object), the number of tags equals the number of keys. |
| `BuildToHtml.NamesIrrelevant` | scripts/build-to-html.js:18-28 | Two manifests with the same value sequence give identical tag lists. Logical names never reach the output. |
| `BuildToHtml.DecodeTags` | scripts/build-to-html.js:18-28 | Parsing the tag list back gives exactly the manifest's values, in key order. |
| `BuildToHtml.PartialText` | scripts/build-to-html.js:9 | The partial text always ends with `"\n"`. An empty tag list gives exactly `"\n"`. |
| `BuildToHtml.PartialRoundTrip` | scripts/build-to-html.js:9-15 | For a non-empty list of newline-free tags, dropping the partial's trailing newline and splitting on `"\n"` gives the tag list back. |
| `BuildToHtml.EmptyPartialReadsAsOneBlankLine` | scripts/build-to-html.js:9-15 | An empty manifest's partial splits back into one empty line (`[""]`), not into no tags. So the round trip needs a non-empty list. |
| `BuildToHtml.ManifestRoundTrip` | scripts/build-to-html.js:6-16 | For a non-empty manifest with newline-free file names, the partial text reads back to the manifest's values in key order. |
| `BuildToHtml.WritePartials` | scripts/build-to-html.js:6-16 | The script writes exactly the two partial paths. The CSS partial holds the text of `toLinkTags(css)`, the JS partial the text of `toScriptTags(js)`. Every other file is unchanged. |
| `BuildToHtml.RebuildIsIdempotent` | scripts/build-to-html.js:6-16 | A second run on unchanged manifests leaves the file tree as the first run left it. |
| `BuildToHtml.PreviousPartialsIrrelevant` | scripts/build-to-html.js:7-16 | The partials' new text does not depend on what they held before. They are overwritten, not merged. |
| `RollupConfig.ProductionIsExactMatch` | rollup.config.js:9 | About `IsProduction`, the model of this line: production mode is on iff `NODE_ENV` is exactly `"production"`. An unset variable, a different case or trailing space leaves it off. |
| `RollupConfig.EntryFileNames` | rollup.config.js:17 | The entry name starts with `bundle` and ends with `.js`. It is exactly `bundle.[hash].js` in production mode and `bundle.js` otherwise, so it holds the `[hash]` placeholder iff production mode is on. |
| `RollupConfig.SourcemapFor` | rollup.config.js:18 | Source maps are off (`false`) iff production mode is on, and `'inline'` otherwise. |
| `RollupConfig.Output` | rollup.config.js:13-19 | The output is an `iife` named `app` in `cms/web/assets/js`. Its entry name is the one `EntryFileNames` gives for the mode. It has a hashed entry name and no source map exactly in production mode. |
| `RollupConfig.ActiveKeepsExactlyTheGivenPlugins` | rollup.config.js:20-37 | A plugin runs iff some slot of the plugin array holds it. The production-only slots, `false` outside production mode, contribute nothing. |
| `RollupConfig.ActiveSlots` | rollup.config.js:20-37 | `PluginSlots` is the plugin array as written, with `None` in each production-only slot outside production mode. The plugins that run are resolve, commonjs and buble, followed by strip, terser and html in production mode only. |
| `RollupConfig.Plugins` | rollup.config.js:24-27 | resolve, commonjs and buble always run first. `strip`, `terser` and the manifest-writing `html` plugin each run iff production mode is on. |
| `RollupConfig.ManifestIsLastWriterWins` | rollup.config.js:29-35 | The manifest's key set is exactly the set of chunk names. Each key maps to the public path + file name of the last emitted file with that name. |
| `RollupConfig.NoJsFilesGiveEmptyManifest` | rollup.config.js:31 | With no `js` group in `files`, the manifest is the empty map. |
| `RollupConfig.Template` | rollup.config.js:29-35 | The loop's result equals the fold `Manifest` over `files.js`, and is empty when `files.js` is absent. Its keys are the JS chunk names; other kinds are never read. Each key holds the public path + file name of the last JS file with that name. |
| `RollupConfig.LaterFileOverwritesEarlier` | rollup.config.js:32 | Of two files with the same name, the manifest keeps only the later one's path. |

## Left out

- Reading the manifest files, `JSON.parse` and `JSON.stringify`: these are I/O and foreign calls. Manifests arrive already parsed. The template's result is the object before it is serialised.
- The order of `Object.keys`: the manifest sequence is taken to be in that order already. JavaScript's rule that integer-like keys come first in ascending order is not modelled.
- `RollupConfig.Template`: its result is a `map`, so the insertion order of the JSON object it serialises is not modelled. A name written twice keeps its first position in JavaScript. The model does not record the link from that order to the key order the partial builder later reads.
- `RollupConfig.Template`: two chunk names behave differently in JavaScript and are not modelled. A `name` that is `undefined` would be stored under the key `"undefined"`; every name is a string here. A chunk named `__proto__` assigned on a plain object goes to the inherited prototype setter, which ignores a string value, so that key never reaches the JSON; the model stores it like any other name.
- `BuildToHtml.WritePartials`: it takes both manifests as already parsed. The script reads and parses the JS manifest only after it has overwritten the CSS partial, so a missing or malformed JS manifest ends the run with a new CSS partial beside a stale JS partial. That half-finished run is not modelled.
- The tags use the literal prefixes `/assets/css/` and `/assets/js/`, and file names are pasted into them without escaping or validation.
- Each partial is overwritten by a plain synchronous file write. A missing or malformed manifest throws from the file read or the JSON parse; the model has no error value for it.
- `process.env` is a parameter (a map from variable names to values).
- The bundler itself: resolving and transpiling modules, substituting `[hash]`, and what `strip` and `terser` do to the code. Only which plugins run and the options given to them in the output block are modelled. Rollup's dropping of falsy plugin entries is modelled as a filter over the slots.
- The `input`, `fileName: 'manifest.json'` and per-plugin options (`browser: true`, buble's `include`) are constants that no modelled operation uses.
- Two path mismatches are stated here and not modelled. `postcss.config.js:1` writes the CSS manifest under `assets/site/css`, but `scripts/build-to-html.js:3` reads `assets/css`. Also, rollup's manifest values already start with `publicPath` (`rollup.config.js:32`), and the script tag builder prefixes `/assets/js/` again (`scripts/build-to-html.js:26`).
- `cms/config/general.php`, `cms/config/app.php`, `cms/web/index.php`: these are CMS framework configuration and bootstrap built on environment lookups. The framework is not part of this model.
- `tailwind.config.js`, `postcss.config.js`: declarative plugin wiring for external stylesheet tools.
- `src/js/utils.js`: browser event listeners and analytics calls.
