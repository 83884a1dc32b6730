/** The extension and MIME tables of web/client/scripts/util.js. The helpers
    there start from `Stdpath.extname(fname)`, which is not part of this model:
    every function here takes that extension (`""` or a dot followed by the
    extension) as its parameter `ext`, and `hasGeneratedExt` also takes the
    file name and `Stdpath.dirname(fname)`. */
module Mime {
  import opened Js
  import opened TextUtil

  /** The `mimeTypes` table, keyed by the extension without its dot. */
  const MimeTypes: map<string, string> := map[
    "mdk" := "text/madoko",
    "md" := "text/markdown",
    "mkdn" := "text/markdown",
    "markdown" := "text/markdown",
    "txt" := "text/plain",
    "css" := "text/css",
    "html" := "text/html",
    "htm" := "text/html",
    "xml" := "text/html",
    "js" := "text/javascript",
    "pdf" := "application/pdf",
    "json" := "application/json",
    "tex" := "text/tex",
    "sty" := "text/tex",
    "cls" := "text/tex",
    "bib" := "text/plain",
    "bbl" := "text/tex",
    "aux" := "text/tex",
    "dimx" := "text/plain",
    "log" := "text/plain",
    "png" := "image/png",
    "jpg" := "image/jpg",
    "jpeg" := "image/jpg",
    "gif" := "image/gif",
    "svg" := "image/svg+xml",
    "eps" := "image/eps"
  ]

  /** Table keys whose type is an image type. */
  const ImageKeys: set<string> := {"png", "jpg", "jpeg", "gif", "svg", "eps"}

  /** Table keys whose type is neither an image nor a `text/` type. */
  const ApplicationKeys: set<string> := {"pdf", "json"}

  /** `mimeFromExt(fname)`: the table entry for the extension without its
      dot, `text/plain` when there is no extension or no entry. */
  function MimeFromExt(ext: string): (r: string)
    ensures r == "text/plain" || r in MimeTypes.Values
  {
    if ext != "" && ext[1..] in MimeTypes then MimeTypes[ext[1..]] else "text/plain"
  }

  /** `hasImageExt(fname)`. */
  predicate HasImageExt(ext: string) {
    StartsWith(MimeFromExt(ext), "image/")
  }

  /** `hasTextExt(fname)`. */
  predicate HasTextExt(ext: string) {
    StartsWith(MimeFromExt(ext), "text/")
  }

  /** `isTextMime(mime)`: a `text/` type or JSON. */
  predicate IsTextMime(mime: string) {
    StartsWith(mime, "text/") || mime == "application/json"
  }

  /** The keys of the table sorted by the kind of type they map to. */
  lemma MimeKinds(key: string)
    requires key in MimeTypes
    ensures StartsWith(MimeTypes[key], "image/") <==> key in ImageKeys
    ensures StartsWith(MimeTypes[key], "text/") <==> key !in ImageKeys && key !in ApplicationKeys
    ensures MimeTypes[key] == "application/json" <==> key == "json"
  {
    assert "text/" <= "text/madoko" && "text/madoko"[0] == 't';
    assert "text/" <= "text/markdown" && "text/markdown"[0] == 't';
    assert "text/" <= "text/plain" && "text/plain"[0] == 't';
    assert "text/" <= "text/css" && "text/css"[0] == 't';
    assert "text/" <= "text/html" && "text/html"[0] == 't';
    assert "text/" <= "text/javascript" && "text/javascript"[0] == 't';
    assert "text/" <= "text/tex" && "text/tex"[0] == 't';
    assert "image/" <= "image/png" && "image/png"[0] == 'i';
    assert "image/" <= "image/jpg" && "image/jpg"[0] == 'i';
    assert "image/" <= "image/gif" && "image/gif"[0] == 'i';
    assert "image/" <= "image/svg+xml" && "image/svg+xml"[0] == 'i';
    assert "image/" <= "image/eps" && "image/eps"[0] == 'i';
    assert "application/pdf"[0] == 'a';
    assert "application/json"[0] == 'a';
  }

  /** The image extensions are exactly png, jpg, jpeg, gif, svg and eps. */
  lemma HasImageExtIff(ext: string)
    ensures HasImageExt(ext) <==> ext != "" && ext[1..] in ImageKeys
  {
    assert forall key :: key in ImageKeys ==> key in MimeTypes;
    assert "text/plain"[0] == 't';
    if ext != "" && ext[1..] in MimeTypes {
      MimeKinds(ext[1..]);
    }
  }

  /** Every extension is a text extension except the image ones, pdf and
      json: a missing or unknown extension counts as text. */
  lemma HasTextExtIff(ext: string)
    ensures HasTextExt(ext) <==> !(ext != "" && (ext[1..] in ImageKeys || ext[1..] in ApplicationKeys))
  {
    if ext != "" && ext[1..] in MimeTypes {
      MimeKinds(ext[1..]);
    }
  }

  /** The type of an extension is a text type exactly when the extension is a
      text extension or json. */
  lemma TextMimeOfExt(ext: string)
    ensures IsTextMime(MimeFromExt(ext)) <==> HasTextExt(ext) || (ext != "" && ext[1..] == "json")
  {
    if ext != "" && ext[1..] in MimeTypes {
      MimeKinds(ext[1..]);
    }
  }

  /** Every non-empty piece of a joined list is contained in it. */
  lemma JoinedPiecesContained(ps: seq<string>, sep: string)
    requires forall p :: p in ps ==> p != ""
    ensures forall k :: 0 <= k < |ps| ==> ps[k] != "" && ContainsSub(Join(ps, sep), ps[k])
  {
    forall k | 0 <= k < |ps| ensures ps[k] != "" && ContainsSub(Join(ps, sep), ps[k]) {
      assert ps[k] in ps;
      JoinHasPiece(ps, sep, k);
      var i :| OccursAt(Join(ps, sep), ps[k], i);
      assert |Join(ps, sep)| >= |ps[k]| > 0;
    }
  }

  /** The pieces of `embedExts`. */
  const EmbedList: seq<string> := [".bbl", ".js", ".css", ".json", ".mdk", ".cls", ".bib"]

  /** `embedExts`: the list joined with `;`. */
  const EmbedExts: string := Join(EmbedList, ";")

  /** `hasEmbedExt(fname)`: the extension occurs somewhere in `embedExts`. */
  predicate HasEmbedExt(ext: string) {
    ext != "" && ContainsSub(EmbedExts, ext)
  }

  /** Every listed extension is embedded. */
  lemma EmbedListAccepted()
    ensures forall k :: 0 <= k < |EmbedList| ==> HasEmbedExt(EmbedList[k])
  {
    JoinedPiecesContained(EmbedList, ";");
  }

  /** The test is a substring test, so a dotted prefix of a listed extension,
      such as `.j` or `.c`, is embedded too; `.tex` and `.png` are not. */
  lemma EmbedExtsBySubstring()
    ensures HasEmbedExt(".j") && HasEmbedExt(".c")
    ensures !HasEmbedExt(".tex") && !HasEmbedExt(".png")
  {
    EmbedExtsPrefixes();
    EmbedExtsMiss();
  }

  lemma EmbedExtsPrefixes()
    ensures HasEmbedExt(".j") && HasEmbedExt(".c")
  {
    assert ContainsSub(EmbedExts, ".j") by {
      JoinHasPiece(EmbedList, ";", 1);
      var i1 :| OccursAt(EmbedExts, ".js", i1);
      assert OccursAt(".js", ".j", 0);
      OccursWithin(EmbedExts, ".js", ".j", i1, 0);
    }
    assert ContainsSub(EmbedExts, ".c") by {
      JoinHasPiece(EmbedList, ";", 2);
      var i2 :| OccursAt(EmbedExts, ".css", i2);
      assert OccursAt(".css", ".c", 0);
      OccursWithin(EmbedExts, ".css", ".c", i2, 0);
    }
  }

  lemma EmbedExtsMiss()
    ensures !HasEmbedExt(".tex") && !HasEmbedExt(".png")
  {
    EmbedExtsLack('t', ".tex");
    EmbedExtsLack('p', ".png");
  }

  /** An extension with a character no listed extension has is not embedded. */
  lemma EmbedExtsLack(c: char, ext: string)
    requires |ext| >= 2 && ext[1] == c && c != ';'
    requires forall k :: 0 <= k < |EmbedList| ==> c !in EmbedList[k]
    ensures !HasEmbedExt(ext)
  {
    JoinAvoids(EmbedList, ";", c);
    CharAbsent(EmbedExts, ext, 1);
  }

  /** The pieces of `dropExts` as written: only `.js` and `.css` carry their dot. */
  const DropList: seq<string> := [".js", ".css", "mdk", "md", "bib", "cls", "sty", "tex", "png", "jpg", "jpeg", "gif", "svg", "eps"]

  const DropExts: string := Join(DropList, ";")

  /** `hasDropExt(fname)` as written. */
  predicate HasDropExt(ext: string) {
    ext != "" && ContainsSub(DropExts, ext)
  }

  /** A dotted three-letter extension other than the second piece is not
      found in a `;`-joined list whose only dots start its first two pieces,
      the first of them three characters long and the second four. */
  lemma UndottedMiss(ps: seq<string>, sub: string)
    requires |ps| >= 2 && |sub| == 4 && sub[0] == '.' && ';' !in sub
    requires |ps[0]| == 3 && |ps[1]| == 4 && ps[1] != sub
    requires forall k :: 2 <= k < |ps| ==> '.' !in ps[k]
    ensures !ContainsSub(Join(ps, ";"), sub)
  {
    UndottedPiecesLack(ps, sub);
    JoinLacks(ps, ';', sub);
  }

  lemma UndottedPiecesLack(ps: seq<string>, sub: string)
    requires |ps| >= 2 && |sub| == 4 && sub[0] == '.'
    requires |ps[0]| == 3 && |ps[1]| == 4 && ps[1] != sub
    requires forall k :: 2 <= k < |ps| ==> '.' !in ps[k]
    ensures forall p, j :: p in ps ==> !OccursAt(p, sub, j)
  {
    forall p, j | p in ps ensures !OccursAt(p, sub, j) {
      if p != ps[0] && p != ps[1] {
        var k :| 0 <= k < |ps| && ps[k] == p;
        CharAbsent(p, sub, 0);
      } else if p == ps[1] && |p| == 4 && j == 0 {
        assert p[0..4] == p;
      }
    }
  }

  /** Since an extension starts with a dot, the undotted entries of
      `dropExts` can never match: no extension of three letters except
      `.css` is a drop extension, so neither is any of `.mdk .bib .cls .sty
      .tex .png .jpg .gif .svg .eps`. */
  lemma DropExtsMissThreeLetter(ext: string)
    requires |ext| == 4 && ext[0] == '.' && ';' !in ext && ext != ".css"
    ensures !HasDropExt(ext)
  {
    UndottedMiss(DropList, ext);
  }

  /** In particular a Madoko source is not a drop file. */
  lemma DropExtsMissMadoko()
    ensures !HasDropExt(".mdk") && !HasDropExt(".png")
  {
    DropExtsMissThreeLetter(".mdk");
    DropExtsMissThreeLetter(".png");
  }

  /** The two dotted entries do match. */
  lemma DropExtsDotted()
    ensures HasDropExt(".js") && HasDropExt(".css")
  {
    JoinHasPiece(DropList, ";", 0);
    JoinHasPiece(DropList, ";", 1);
  }

  /** The dotted list, every entry written as its first two are. */
  const DroppedList: seq<string> := [".js", ".css", ".mdk", ".md", ".bib", ".cls", ".sty", ".tex", ".png", ".jpg", ".jpeg", ".gif", ".svg", ".eps"]

  const DroppedExts: string := Join(DroppedList, ";")

  /** `hasDropExt(fname)` over the dotted list. */
  predicate HasDroppedExt(ext: string) {
    ext != "" && ContainsSub(DroppedExts, ext)
  }

  /** Every listed extension is a drop file for the dotted list, a `.mdk`
      file included, and a `.doc` file still is not. */
  lemma DroppedListAccepted()
    ensures forall k :: 0 <= k < |DroppedList| ==> HasDroppedExt(DroppedList[k])
    ensures HasDroppedExt(".mdk")
  {
    JoinedPiecesContained(DroppedList, ";");
    assert DroppedList[2] == ".mdk";
  }

  lemma DroppedListSelective()
    ensures !HasDroppedExt(".doc")
  {
    JoinAvoids(DroppedList, ";", 'o');
    CharAbsent(DroppedExts, ".doc", 2);
  }

  /** The pieces of `generatedExts`. */
  const GeneratedList: seq<string> := [".bbl", ".dimx", ".aux", ".dvi", ".pdf", ".html", ".log"]

  const GeneratedExts: string := Join(GeneratedList, ";")

  /** `hasGeneratedExt(fname)`, given `ext = extname(fname)` and
      `dir = dirname(fname)`: a file without an extension is never generated;
      otherwise it is when the extension is listed, the name ends in
      `.final.tex`, or the file sits directly in `out`. */
  predicate HasGeneratedExt(fname: string, ext: string, dir: string) {
    ext != "" && (ContainsSub(GeneratedExts, ext) || EndsWith(fname, ".final.tex") || dir == "out")
  }

  /** The listed extensions are generated in any directory; any file with an
      extension is generated inside `out`; a file without one never is. */
  lemma GeneratedAccepted(fname: string, dir: string)
    ensures forall k :: 0 <= k < |GeneratedList| ==> HasGeneratedExt(fname, GeneratedList[k], dir)
    ensures forall ext :: ext != "" ==> HasGeneratedExt(fname, ext, "out")
    ensures !HasGeneratedExt(fname, "", dir)
  {
    JoinedPiecesContained(GeneratedList, ";");
  }

  /** A `.tex` file is generated exactly when its name ends in `.final.tex`
      or it lies in `out`. */
  lemma GeneratedTex(fname: string, dir: string)
    ensures HasGeneratedExt(fname, ".tex", dir) <==> EndsWith(fname, ".final.tex") || dir == "out"
  {
    JoinAvoids(GeneratedList, ";", 'e');
    CharAbsent(GeneratedExts, ".tex", 2);
  }
}
