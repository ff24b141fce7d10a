/**
  `ViteTags` of `vite_prod.go`: the HTML that loads one entry point of the
  built front end, read from the Vite manifest. The manifest is passed in
  as the map it decodes to; reading and decoding it once is not modelled.
 */
module ViteProd {
  import opened Strings

  /** One manifest record: the built script and the style sheets it needs. */
  datatype ManifestEntry = ManifestEntry(File: string, CSS: seq<string>)

  /** The style sheet link written for one CSS file, newline included. */
  function LinkTag(css: string): string {
    "<link rel=\"stylesheet\" href=\"/static/dist/" + css + "\">" + "\n"
  }

  /** The module script written for the entry's file. */
  function ScriptTag(file: string): string {
    "<script type=\"module\" src=\"/static/dist/" + file + "\"></script>"
  }

  /** The links for `css`, in manifest order. */
  function Links(css: seq<string>): string
    decreases |css|
  {
    if css == [] then "" else Links(css[..|css| - 1]) + LinkTag(css[|css| - 1])
  }

  /** Where the link of `css[i]` starts in `Links(css)`: after the links
      of all earlier files. */
  function Offset(css: seq<string>, i: nat): nat
    requires i <= |css|
  {
    if i == 0 then 0 else Offset(css, i - 1) + |LinkTag(css[i - 1])|
  }

  /** `ViteTags` with the manifest given: nothing for an unknown entry;
      otherwise the links of its CSS files, then its script. */
  method ViteTags(manifest: map<string, ManifestEntry>, entry: string) returns (html: string)
    ensures entry !in manifest ==> html == ""
    ensures entry in manifest ==> html == Links(manifest[entry].CSS) + ScriptTag(manifest[entry].File)
    ensures entry in manifest && manifest[entry].CSS == [] ==> html == ScriptTag(manifest[entry].File)
  {
    if entry !in manifest {
      return "";
    }
    var me := manifest[entry];
    var out := "";
    for i := 0 to |me.CSS|
      invariant out == Links(me.CSS[..i])
    {
      assert me.CSS[..i + 1][..i] == me.CSS[..i];
      out := out + LinkTag(me.CSS[i]);
    }
    assert me.CSS[..|me.CSS|] == me.CSS;
    out := out + ScriptTag(me.File);
    html := out;
  }

  /** Offsets into a list do not depend on what follows the position. */
  lemma {:induction false} OffsetOfPrefix(css: seq<string>, n: nat, i: nat)
    requires i <= n <= |css|
    ensures Offset(css[..n], i) == Offset(css, i)
    decreases i
  {
    if i > 0 {
      OffsetOfPrefix(css, n, i - 1);
    }
  }

  /** The links take exactly the room their tags need. */
  lemma {:induction false} LinksLength(css: seq<string>)
    ensures |Links(css)| == Offset(css, |css|)
    decreases |css|
  {
    if css != [] {
      var n := |css| - 1;
      var init := css[..n];
      LinksLength(init);
      OffsetOfPrefix(css, n, n);
      assert Links(css) == Links(init) + LinkTag(css[n]);
      assert Offset(css, n + 1) == Offset(css, n) + |LinkTag(css[n])|;
    }
  }

  /** The `i`-th tag of the links is the link of the `i`-th CSS file, so
      there is one link per CSS file, in manifest order. */
  lemma {:induction false} LinkAt(css: seq<string>, i: nat)
    requires i < |css|
    ensures OccursAt(Links(css), LinkTag(css[i]), Offset(css, i))
    decreases |css|
  {
    var n := |css| - 1;
    var init := css[..n];
    assert Links(css) == Links(init) + LinkTag(css[n]);
    OffsetOfPrefix(css, n, i);
    if i == n {
      LinksLength(init);
      OffsetOfPrefix(css, n, n);
      OccursAfter(Links(init), LinkTag(css[n]));
    } else {
      assert init[i] == css[i];
      LinkAt(init, i);
      OccursInLeft(Links(init), LinkTag(css[n]), LinkTag(css[i]), Offset(css, i));
    }
  }

  /** The output of a known entry is its links, each where `LinkAt` puts
      it, followed by exactly one script tag that ends the output. */
  lemma TagsOfEntry(me: ManifestEntry, html: string)
    requires html == Links(me.CSS) + ScriptTag(me.File)
    ensures forall i :: 0 <= i < |me.CSS| ==> OccursAt(html, LinkTag(me.CSS[i]), Offset(me.CSS, i))
    ensures OccursAt(html, ScriptTag(me.File), Offset(me.CSS, |me.CSS|))
    ensures |html| == Offset(me.CSS, |me.CSS|) + |ScriptTag(me.File)|
  {
    var links := Links(me.CSS);
    LinksLength(me.CSS);
    forall i | 0 <= i < |me.CSS|
      ensures OccursAt(html, LinkTag(me.CSS[i]), Offset(me.CSS, i))
    {
      LinkAt(me.CSS, i);
      OccursInLeft(links, ScriptTag(me.File), LinkTag(me.CSS[i]), Offset(me.CSS, i));
    }
    OccursAfter(links, ScriptTag(me.File));
  }
}
