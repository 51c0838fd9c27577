/**
 The manifest-to-partial conversion run after each asset build: every hashed file name
 of the CSS manifest becomes a stylesheet `<link>` tag, every one of the JS manifest a
 deferred `<script>` tag, and each tag list is written, newline-joined with a trailing
 newline, to a template partial that the CMS includes verbatim.
 */
module BuildToHtml {

  import opened Wrappers
  import Strings

  /** A parsed manifest: (logical name, hashed file name) pairs in the object's key order. */
  type Manifest = seq<(string, string)>

  /** The hashed file names of a manifest, in key order. */
  function Values(m: Manifest): (vs: seq<string>)
    ensures |vs| == |m|
    ensures forall i :: 0 <= i < |m| ==> vs[i] == m[i].1
  {
    if m == [] then [] else [m[0].1] + Values(m[1..])
  }

  /** The logical names of a manifest, as a set. */
  function KeySet(m: Manifest): set<string>
  {
    set i | 0 <= i < |m| :: m[i].0
  }

  /** A JavaScript object never holds the same key twice. */
  predicate DistinctKeys(m: Manifest)
  {
    forall i, j :: 0 <= i < j < |m| ==> m[i].0 != m[j].0
  }

  /** The two partials: stylesheet links and deferred scripts. */
  datatype Kind = Css | Js

  /** The fixed text before the hashed file name in a tag. */
  function Opening(kind: Kind): (text: string)
    ensures '\n' !in text
  {
    match kind
    case Css => "<link rel=\"stylesheet\" href=\"/assets/css/"
    case Js => "<script defer src=\"/assets/js/"
  }

  /** The fixed text after the hashed file name in a tag. */
  function Closing(kind: Kind): (text: string)
    ensures '\n' !in text
  {
    match kind
    case Css => "\">"
    case Js => "\"></script>"
  }

  /** The file name a tag of the given kind points at, or None if it is not such a tag. */
  function Target(kind: Kind, tag: string): Option<string>
  {
    var o, c := Opening(kind), Closing(kind);
    if |o| + |c| <= |tag| && tag[..|o|] == o && tag[|tag| - |c|..] == c
    then Some(tag[|o|..|tag| - |c|])
    else None
  }

  /** The tag for one hashed file name; the name is pasted in without escaping. */
  function Tag(kind: Kind, file: string): (tag: string)
    ensures |tag| == |Opening(kind)| + |file| + |Closing(kind)|
    ensures Target(kind, tag) == Some(file)
    ensures '\n' in tag <==> '\n' in file
  {
    var tag := Opening(kind) + file + Closing(kind);
    assert tag[..|Opening(kind)|] == Opening(kind);
    assert tag[|tag| - |Closing(kind)|..] == Closing(kind);
    assert tag[|Opening(kind)|..|tag| - |Closing(kind)|] == file;
    tag
  }

  /** One tag per manifest entry, in key order. */
  function Tags(kind: Kind, m: Manifest): (tags: seq<string>)
    ensures |tags| == |m|
    ensures forall i :: 0 <= i < |m| ==> tags[i] == Tag(kind, m[i].1)
  {
    if m == [] then [] else [Tag(kind, m[0].1)] + Tags(kind, m[1..])
  }

  /** The CSS tag builder: a stylesheet link per manifest entry, in key order. */
  function ToLinkTags(m: Manifest): (tags: seq<string>)
    ensures |tags| == |m|
    ensures forall i :: 0 <= i < |m| ==>
      tags[i] == "<link rel=\"stylesheet\" href=\"/assets/css/" + m[i].1 + "\">"
  {
    Tags(Css, m)
  }

  /** The JS tag builder: a deferred script per manifest entry, in key order. */
  function ToScriptTags(m: Manifest): (tags: seq<string>)
    ensures |tags| == |m|
    ensures forall i :: 0 <= i < |m| ==>
      tags[i] == "<script defer src=\"/assets/js/" + m[i].1 + "\"></script>"
  {
    Tags(Js, m)
  }

  /** The keys of a non-empty manifest: the first one and those of the rest. */
  lemma KeySetCons(m: Manifest)
    requires m != []
    ensures KeySet(m) == {m[0].0} + KeySet(m[1..])
  {
  }

  /** With distinct keys, there are exactly as many tags as the manifest has keys. */
  lemma {:induction false} TagCountIsKeyCount(kind: Kind, m: Manifest)
    requires DistinctKeys(m)
    ensures |Tags(kind, m)| == |KeySet(m)|
  {
    if m != [] {
      var rest := m[1..];
      assert DistinctKeys(rest) by {
        forall i, j | 0 <= i < j < |rest| ensures rest[i].0 != rest[j].0 {
          assert rest[i] == m[i + 1] && rest[j] == m[j + 1];
        }
      }
      TagCountIsKeyCount(kind, rest);
      KeySetCons(m);
      forall i | 0 <= i < |rest| ensures rest[i].0 != m[0].0 {
        assert rest[i] == m[i + 1];
      }
      assert m[0].0 !in KeySet(rest);
    }
  }

  /** Logical names never reach the output: equal value sequences give equal tag lists. */
  lemma NamesIrrelevant(kind: Kind, m1: Manifest, m2: Manifest)
    requires Values(m1) == Values(m2)
    ensures Tags(kind, m1) == Tags(kind, m2)
  {
  }

  /** The hashed file names a tag list points at, in order, or None if one is not a tag. */
  function Decode(kind: Kind, tags: seq<string>): Option<seq<string>>
  {
    if tags == [] then Some([])
    else
      var f, fs := Target(kind, tags[0]), Decode(kind, tags[1..]);
      if f.Some? && fs.Some? then Some([f.value] + fs.value) else None
  }

  /** The tag list can be read back into the manifest's values, in key order. */
  lemma {:induction false} DecodeTags(kind: Kind, m: Manifest)
    ensures Decode(kind, Tags(kind, m)) == Some(Values(m))
  {
    if m != [] {
      var tags := Tags(kind, m);
      DecodeTags(kind, m[1..]);
      assert tags[1..] == Tags(kind, m[1..]);
      assert Target(kind, tags[0]) == Some(m[0].1);
    }
  }

  /** The partial's text: the tags joined with newlines, followed by one more newline. */
  function PartialText(tags: seq<string>): (text: string)
    ensures |text| >= 1 && text[|text| - 1] == '\n'
    ensures tags == [] ==> text == "\n"
  {
    Strings.Join(tags, '\n') + "\n"
  }

  /** Dropping the trailing newline and splitting on newlines gives the tags back. */
  lemma PartialRoundTrip(tags: seq<string>)
    requires tags != []
    requires forall k :: 0 <= k < |tags| ==> '\n' !in tags[k]
    ensures var text := PartialText(tags); Strings.Split(text[..|text| - 1], '\n') == tags
  {
    var text := PartialText(tags);
    assert text[..|text| - 1] == Strings.Join(tags, '\n');
    Strings.SplitJoin(tags, '\n');
  }

  /** An empty manifest's partial reads back as one empty line, since splitting the empty string gives one empty part. */
  lemma EmptyPartialReadsAsOneBlankLine(kind: Kind)
    ensures var text := PartialText(Tags(kind, [])); Strings.Split(text[..|text| - 1], '\n') == [""]
  {
  }

  /** From a non-empty manifest with newline-free file names, its partial gives back its values. */
  lemma ManifestRoundTrip(kind: Kind, m: Manifest)
    requires m != []
    requires forall i :: 0 <= i < |m| ==> '\n' !in m[i].1
    ensures var text := PartialText(Tags(kind, m));
      Decode(kind, Strings.Split(text[..|text| - 1], '\n')) == Some(Values(m))
  {
    PartialRoundTrip(Tags(kind, m));
    DecodeTags(kind, m);
  }

  const CssPartialPath := "cms/templates/_boilerplate/_partials/build-css.html"
  const JsPartialPath := "cms/templates/_boilerplate/_partials/build-js.html"

  /**
   The script's effect on the file tree (path to text), given both manifests already
   parsed: the CSS partial is written, then the JS partial, each replacing what was there.
   */
  function WritePartials(files: map<string, string>, css: Manifest, js: Manifest): (files': map<string, string>)
    ensures files'.Keys == files.Keys + {CssPartialPath, JsPartialPath}
    ensures files'[CssPartialPath] == PartialText(ToLinkTags(css))
    ensures files'[JsPartialPath] == PartialText(ToScriptTags(js))
    ensures forall p :: p in files && p != CssPartialPath && p != JsPartialPath ==> files'[p] == files[p]
  {
    files[CssPartialPath := PartialText(ToLinkTags(css))][JsPartialPath := PartialText(ToScriptTags(js))]
  }

  /** Rerunning the script on unchanged manifests leaves the file tree as the first run did. */
  lemma RebuildIsIdempotent(files: map<string, string>, css: Manifest, js: Manifest)
    ensures WritePartials(WritePartials(files, css, js), css, js) == WritePartials(files, css, js)
  {
  }

  /** What a partial held before the build has no influence on what it holds after. */
  lemma PreviousPartialsIrrelevant(f1: map<string, string>, f2: map<string, string>, css: Manifest, js: Manifest)
    ensures var a, b := WritePartials(f1, css, js), WritePartials(f2, css, js);
      a[CssPartialPath] == b[CssPartialPath] && a[JsPartialPath] == b[JsPartialPath]
  {
  }

}
