/** What a save makes of copied footprints: which models go where, how links are
    rewritten, and which uploads are left when several footprints are copied. */
module CopiedFootprints {
  import opened Text
  import opened Files

  // ----- what the other crates do -----

  /** A footprint file's text: its 3D model links in order, and all the rest. */
  datatype FootprintText = FootprintText(rest: string, links: seq<string>)

  datatype Result<+T> = Ok(value: T) | Err(error: string)

  datatype Role = Model | FootprintRole

  /** What a save sends to the team server. */
  datatype CadUpload = CadUpload(role: Role, reference: string, contents: Contents, source: string,
                                 installed: Option<(string, string)>)

  datatype Contents = Bytes(base64: string) | Linked(text: FootprintText)

  /** The operations of other crates that saving uses. */
  datatype Catalog = Catalog(
    readFootprint: string -> Result<(FootprintText, string)>,   // the text and the name of a footprint file
    checkFootprint: (FootprintText, string) -> Result<()>,      // whether it may be saved as this reference
    checkModel: (string, string) -> Result<()>,                 // whether these bytes may be saved at this place
    isOutside: (string, string, string) -> bool,                // a link of footprint LIBRARY:NAME
    isPlainName: string -> bool,
    placeFor: (string, string) -> string,                       // where a library keeps a file of this name
    isPlace: string -> bool,
    linkTo: string -> string)
  {
    /** A link to a place of the catalog is not outside it. */
    ghost predicate Lawful() {
      forall library, name, place :: isPlace(place) ==> !isOutside(library, name, linkTo(place))
    }
  }

  /** The text with each link `link` written as `to`. */
  function Relinked(text: FootprintText, link: string, to: string): FootprintText {
    text.(links := seq(|text.links|, i requires 0 <= i < |text.links| =>
      if text.links[i] == link then to else text.links[i]))
  }

  function LinksWithout(links: seq<string>, left: string -> bool): seq<string> {
    if links == [] then []
    else (if left(links[0]) then [] else [links[0]]) + LinksWithout(links[1..], left)
  }

  // ----- the program -----

  predicate IsForbidden(c: char) {
    c == '"' || c == '<' || c == '>' || c == '|' || c == '?' || c == '*'
  }

  /** A file name with what Windows forbids replaced by `_`. */
  function ModelFileName(name: string): string {
    seq(|name|, i requires 0 <= i < |name| => if IsForbidden(name[i]) then '_' else name[i])
  }

  function SourceOf(file: TeamFile): string {
    if file.sourceLabel.Some? then file.sourceLabel.value else file.fileName
  }

  function InstalledSource(file: TeamFile): Option<(string, string)> {
    if file.installed.Some? then Some((file.installed.value.library, file.installed.value.path)) else None
  }

  /** The first model sent for `link`. */
  function ModelFor(models: seq<TeamFile>, link: string): Option<TeamFile> {
    if models == [] then None
    else if models[0].installed.Some? && models[0].installed.value.link == Some(link) then Some(models[0])
    else ModelFor(models[1..], link)
  }

  function LibraryOf(reference: string): string {
    if SplitOnce(reference).Some? then SplitOnce(reference).value.0 else []
  }

  function NameOf(reference: string): string {
    if SplitOnce(reference).Some? then SplitOnce(reference).value.1 else []
  }

  predicate Outside(c: Catalog, reference: string, link: string) {
    c.isOutside(LibraryOf(reference), NameOf(reference), link)
  }

  /** Where the model of `link` goes. */
  function PlaceOf(c: Catalog, reference: string, model: TeamFile): string {
    c.placeFor(LibraryOf(reference), ModelFileName(model.fileName))
  }

  function ModelUpload(c: Catalog, reference: string, model: TeamFile): CadUpload {
    CadUpload(Model, PlaceOf(c, reference, model), Bytes(model.base64), SourceOf(model), InstalledSource(model))
  }

  /** The links taken so far, as pairs of a link and a place. */
  type Placed = seq<(string, string)>

  predicate Clashes(placed: Placed, link: string, place: string) {
    exists p :: p in placed && p.1 == place && p.0 != link
  }

  predicate HasUpload(uploads: seq<CadUpload>, place: string) {
    exists u :: u in uploads && u.reference == place
  }

  /** What copying the links so far came to. */
  datatype Copying = Copying(text: FootprintText, uploads: seq<CadUpload>, placed: Placed)

  /** One link copied. */
  function CopyLink(c: Catalog, reference: string, models: seq<TeamFile>, link: string, so: Copying): Result<Copying> {
    var found := ModelFor(models, link);
    if found.None? then Err("could not be read")
    else
      var model := found.value;
      var place := PlaceOf(c, reference, model);
      if !c.isPlainName(ModelFileName(model.fileName)) then Err("cannot be used")
      else if !c.isPlace(place) then Err("no place")
      else if Clashes(so.placed, link, place) then Err("same file name")
      else
        var next := so.(text := Relinked(so.text, link, c.linkTo(place)), placed := so.placed + [(link, place)]);
        if HasUpload(so.uploads, place) then Ok(next)
        else if c.checkModel(model.base64, place).Err? then Err(c.checkModel(model.base64, place).error)
        else Ok(next.(uploads := so.uploads + [ModelUpload(c, reference, model)]))
  }

  /** The outside links of the original, in order. */
  function OutsideLinks(c: Catalog, reference: string, links: seq<string>): seq<string> {
    if links == [] then []
    else
      var n := |links| - 1;
      OutsideLinks(c, reference, links[..n]) + if Outside(c, reference, links[n]) then [links[n]] else []
  }

  function CopyLinks(c: Catalog, reference: string, models: seq<TeamFile>, links: seq<string>, text: FootprintText)
    : Result<Copying>
  {
    if links == [] then Ok(Copying(text, [], []))
    else
      var n := |links| - 1;
      var before := CopyLinks(c, reference, models, links[..n], text);
      if before.Err? then before else CopyLink(c, reference, models, links[n], before.value)
  }

  /** Most characters the team server keeps of a file's source. */
  const MAX_FILE_NAME := 255

  const ELLIPSIS: char := '\U{2026}'

  function Shortened(name: string): (cut: string)
    ensures |cut| <= MAX_FILE_NAME
  {
    if |name| <= MAX_FILE_NAME then name else name[..MAX_FILE_NAME - 1] + [ELLIPSIS]
  }

  function FootprintUpload(reference: string, file: TeamFile, text: FootprintText, source: string): CadUpload {
    CadUpload(FootprintRole, reference, Linked(text), source, InstalledSource(file))
  }

  const PATH_SET := " (3D model path set to the Catalog's)"
  const LEFT_OUT := " (3D model links left out)"

  /** The text with its outside links left out, or copied. */
  function CopyOf(c: Catalog, file: TeamFile, models: seq<TeamFile>, reference: string, original: FootprintText)
    : Result<Copying>
  {
    if file.noModels
    then Ok(Copying(original.(links := LinksWithout(original.links, l => Outside(c, reference, l))), [], []))
    else CopyLinks(c, reference, models, OutsideLinks(c, reference, original.links), original)
  }

  function UploadsFor(c: Catalog, file: TeamFile, models: seq<TeamFile>, reference: string): Result<seq<CadUpload>> {
    var read := c.readFootprint(file.base64);
    if read.Err? then Err(read.error)
    else
      var original := read.value.0;
      var may := c.checkFootprint(original, reference);
      if may.Err? then Err(may.error)
      else
        var copied := CopyOf(c, file, models, reference, original);
        if copied.Err? then Err(copied.error)
        else
          var text, uploads := copied.value.text, copied.value.uploads;
          var source :=
            if text == original then SourceOf(file)
            else Shortened(SourceOf(file) + if uploads == [] then LEFT_OUT else PATH_SET);
          var last := c.checkFootprint(text, reference);
          if last.Err? then Err(last.error)
          else Ok(uploads + [FootprintUpload(reference, file, text, source)])
  }

  /** The loop over the outside links, as the program runs it. */
  method CopyOutsideLinks(c: Catalog, reference: string, models: seq<TeamFile>, original: FootprintText)
    returns (copied: Result<Copying>)
    ensures copied == CopyLinks(c, reference, models, OutsideLinks(c, reference, original.links), original)
  {
    hide CopyLink;
    var links := OutsideLinks(c, reference, original.links);
    var so := Copying(original, [], []);
    for i := 0 to |links|
      invariant CopyLinks(c, reference, models, links[..i], original) == Ok(so)
    {
      assert links[..i + 1][..i] == links[..i];
      var next := CopyLink(c, reference, models, links[i], so);
      if next.Err? {
        ErrorStays(c, reference, models, links, original, i + 1);
        return next;
      }
      so := next.value;
    }
    assert links[..|links|] == links;
    copied := Ok(so);
  }

  lemma {:induction false} ErrorStays(c: Catalog, reference: string, models: seq<TeamFile>, links: seq<string>,
                                      text: FootprintText, n: nat)
    requires n <= |links| && CopyLinks(c, reference, models, links[..n], text).Err?
    ensures CopyLinks(c, reference, models, links, text) == CopyLinks(c, reference, models, links[..n], text)
    decreases |links|
  {
    hide CopyLink;
    if n == |links| {
      assert links[..n] == links;
    } else {
      var m := |links| - 1;
      assert links[..m][..n] == links[..n];
      ErrorStays(c, reference, models, links[..m], text, n);
    }
  }

  // ----- what copying the links comes to -----

  /** The place of the model of `link`, when one was sent for it. */
  function LinkPlace(c: Catalog, reference: string, models: seq<TeamFile>, link: string): string {
    if ModelFor(models, link).Some? then PlaceOf(c, reference, ModelFor(models, link).value) else []
  }

  predicate CanCopy(c: Catalog, reference: string, models: seq<TeamFile>, link: string) {
    ModelFor(models, link).Some?
    && var model := ModelFor(models, link).value;
    && c.isPlainName(ModelFileName(model.fileName))
    && c.isPlace(PlaceOf(c, reference, model))
    && c.checkModel(model.base64, PlaceOf(c, reference, model)).Ok?
  }

  /** Every link can be copied, and no two of them to one place. */
  ghost predicate CanCopyAll(c: Catalog, reference: string, models: seq<TeamFile>, links: seq<string>) {
    && (forall l :: l in links ==> CanCopy(c, reference, models, l))
    && (forall l, m :: l in links && m in links ==>
          (LinkPlace(c, reference, models, l) == LinkPlace(c, reference, models, m) ==> l == m))
  }

  /** The original with exactly the links in `links` pointed at their places. */
  function Rewritten(c: Catalog, reference: string, models: seq<TeamFile>, links: seq<string>,
                     original: FootprintText): FootprintText
  {
    original.(links := seq(|original.links|, i requires 0 <= i < |original.links| =>
      if original.links[i] in links then c.linkTo(LinkPlace(c, reference, models, original.links[i]))
      else original.links[i]))
  }

  /** Exactly one upload for each place, and it is the model of its link. */
  ghost predicate OneUploadEach(c: Catalog, reference: string, models: seq<TeamFile>, links: seq<string>,
                                uploads: seq<CadUpload>)
  {
    && (forall i, j :: 0 <= i < j < |uploads| ==> uploads[i].reference != uploads[j].reference)
    && (forall l :: l in links ==>
          ModelFor(models, l).Some? && ModelUpload(c, reference, ModelFor(models, l).value) in uploads)
    && (forall u :: u in uploads ==> IsUploadOf(c, reference, models, links, u))
  }

  ghost predicate IsUploadOf(c: Catalog, reference: string, models: seq<TeamFile>, links: seq<string>, u: CadUpload) {
    exists l :: l in links && ModelFor(models, l).Some? && u == ModelUpload(c, reference, ModelFor(models, l).value)
  }

  ghost predicate PlacedAll(c: Catalog, reference: string, models: seq<TeamFile>, links: seq<string>, placed: Placed) {
    && (forall l :: l in links ==> (l, LinkPlace(c, reference, models, l)) in placed)
    && (forall p :: p in placed ==> p.0 in links && p.1 == LinkPlace(c, reference, models, p.0))
  }

  ghost predicate Copied(c: Catalog, reference: string, models: seq<TeamFile>, links: seq<string>,
                         original: FootprintText, so: Copying)
  {
    && so.text == Rewritten(c, reference, models, links, original)
    && PlacedAll(c, reference, models, links, so.placed)
    && OneUploadEach(c, reference, models, links, so.uploads)
  }

  lemma RewrittenOneMore(c: Catalog, reference: string, models: seq<TeamFile>, links: seq<string>, link: string,
                         original: FootprintText)
    requires c.Lawful() && Outside(c, reference, link)
    requires forall l :: l in links ==> CanCopy(c, reference, models, l)
    ensures
      Relinked(Rewritten(c, reference, models, links, original), link, c.linkTo(LinkPlace(c, reference, models, link)))
      == Rewritten(c, reference, models, links + [link], original)
  {
    hide ModelFor, SplitOnce, ModelFileName;
    var before := Rewritten(c, reference, models, links, original);
    var next := Relinked(before, link, c.linkTo(LinkPlace(c, reference, models, link)));
    var whole := Rewritten(c, reference, models, links + [link], original);
    forall i | 0 <= i < |original.links| ensures next.links[i] == whole.links[i] {
      var l := original.links[i];
      if l in links {
        assert CanCopy(c, reference, models, l);
        assert c.isPlace(LinkPlace(c, reference, models, l));
        assert !Outside(c, reference, c.linkTo(LinkPlace(c, reference, models, l)));
        assert before.links[i] != link;
      }
    }
  }

  lemma ClashIs(c: Catalog, reference: string, models: seq<TeamFile>, links: seq<string>, link: string, placed: Placed)
    requires PlacedAll(c, reference, models, links, placed)
    ensures Clashes(placed, link, LinkPlace(c, reference, models, link)) <==>
      exists l :: l in links && l != link
        && LinkPlace(c, reference, models, l) == LinkPlace(c, reference, models, link)
  {
    hide LinkPlace;
    var place := LinkPlace(c, reference, models, link);
    if Clashes(placed, link, place) {
      var p :| p in placed && p.1 == place && p.0 != link;
      assert p.0 in links;
    }
    if l :| l in links && l != link && LinkPlace(c, reference, models, l) == place {
      assert (l, place) in placed;
    }
  }

  /** Without a clash, the place has an upload only for the same link. */
  lemma {:induction false} UploadIsOwn(c: Catalog, reference: string, models: seq<TeamFile>, links: seq<string>,
                                       link: string, uploads: seq<CadUpload>)
    requires OneUploadEach(c, reference, models, links, uploads) && ModelFor(models, link).Some?
    requires forall l :: l in links ==>
      (LinkPlace(c, reference, models, l) == LinkPlace(c, reference, models, link) ==> l == link)
    ensures HasUpload(uploads, LinkPlace(c, reference, models, link)) <==> link in links
  {
    hide ModelFor, PlaceOf;
    var place := LinkPlace(c, reference, models, link);
    if HasUpload(uploads, place) {
      var u :| u in uploads && u.reference == place;
      assert IsUploadOf(c, reference, models, links, u);
      var l :| l in links && ModelFor(models, l).Some? && u == ModelUpload(c, reference, ModelFor(models, l).value);
      assert LinkPlace(c, reference, models, l) == place;
    }
    if link in links {
      assert ModelUpload(c, reference, ModelFor(models, link).value) in uploads;
    }
  }

  lemma {:induction false} UploadsOneMore(c: Catalog, reference: string, models: seq<TeamFile>, links: seq<string>,
                                          link: string, uploads: seq<CadUpload>)
    requires OneUploadEach(c, reference, models, links, uploads) && ModelFor(models, link).Some?
    requires HasUpload(uploads, LinkPlace(c, reference, models, link)) <==> link in links
    ensures OneUploadEach(c, reference, models, links + [link],
      if link in links then uploads else uploads + [ModelUpload(c, reference, ModelFor(models, link).value)])
  {
    hide ModelFor, PlaceOf;
    var own := ModelUpload(c, reference, ModelFor(models, link).value);
    var more := if link in links then uploads else uploads + [own];
    forall u | u in more ensures IsUploadOf(c, reference, models, links + [link], u) {
      if u in uploads {
        assert IsUploadOf(c, reference, models, links, u);
      } else {
        assert link in links + [link];
      }
    }
    forall l | l in links + [link]
      ensures ModelFor(models, l).Some? && ModelUpload(c, reference, ModelFor(models, l).value) in more
    {
      if l !in links {
        assert more[|more| - 1] == own;
      }
    }
    forall i, j | 0 <= i < j < |more| ensures more[i].reference != more[j].reference {
      if j == |uploads| {
        assert uploads[i] in uploads;
      }
    }
  }

  /** One more link, when those before it were copied. */
  lemma CopyLinkIs(c: Catalog, reference: string, models: seq<TeamFile>, links: seq<string>, link: string,
                   original: FootprintText, so: Copying)
    requires c.Lawful() && Outside(c, reference, link)
    requires CanCopyAll(c, reference, models, links) && Copied(c, reference, models, links, original, so)
    ensures var next := CopyLink(c, reference, models, link, so);
      && (next.Ok? <==> CanCopyAll(c, reference, models, links + [link]))
      && (next.Ok? ==> Copied(c, reference, models, links + [link], original, next.value))
  {
    hide ModelFor, PlaceOf, Rewritten, Relinked, OneUploadEach, CanCopy, Clashes, HasUpload, Outside;
    ClashIs(c, reference, models, links, link, so.placed);
    CanCopyOneMore(c, reference, models, links, link);
    if ModelFor(models, link).Some? && !Clashes(so.placed, link, LinkPlace(c, reference, models, link)) {
      UploadIsOwn(c, reference, models, links, link, so.uploads);
      UploadsOneMore(c, reference, models, links, link, so.uploads);
      RewrittenOneMore(c, reference, models, links, link, original);
      CopyLinkCases(c, reference, models, links, link, so);
    } else {
      NoCopy(c, reference, models, link, so);
    }
  }

  lemma {:induction false} NoCopy(c: Catalog, reference: string, models: seq<TeamFile>, link: string, so: Copying)
    requires ModelFor(models, link).None? || Clashes(so.placed, link, LinkPlace(c, reference, models, link))
    ensures CopyLink(c, reference, models, link, so).Err?
    ensures ModelFor(models, link).None? ==> !CanCopy(c, reference, models, link)
  {
    hide ModelFor, PlaceOf, Clashes;
  }

  lemma {:induction false} CopyLinkCases(c: Catalog, reference: string, models: seq<TeamFile>, links: seq<string>,
                                         link: string, so: Copying)
    requires ModelFor(models, link).Some? && !Clashes(so.placed, link, LinkPlace(c, reference, models, link))
    requires HasUpload(so.uploads, LinkPlace(c, reference, models, link)) <==> link in links
    requires link in links ==> CanCopy(c, reference, models, link)
    ensures var next, model := CopyLink(c, reference, models, link, so), ModelFor(models, link).value;
      && (next.Ok? <==> CanCopy(c, reference, models, link))
      && (next.Ok? ==> next.value == Copying(
            Relinked(so.text, link, c.linkTo(LinkPlace(c, reference, models, link))),
            if link in links then so.uploads else so.uploads + [ModelUpload(c, reference, model)],
            so.placed + [(link, LinkPlace(c, reference, models, link))]))
  {
    hide ModelFor, PlaceOf, Clashes, HasUpload, Relinked;
  }

  lemma CanCopyOneMore(c: Catalog, reference: string, models: seq<TeamFile>, links: seq<string>, link: string)
    requires CanCopyAll(c, reference, models, links)
    ensures CanCopyAll(c, reference, models, links + [link]) <==>
      CanCopy(c, reference, models, link)
      && !exists l :: l in links && l != link
           && LinkPlace(c, reference, models, l) == LinkPlace(c, reference, models, link)
  {
    hide CanCopy, LinkPlace;
    assert forall l :: l in links + [link] <==> l in links || l == link;
  }

  lemma {:induction false} CopyLinksIs(c: Catalog, reference: string, models: seq<TeamFile>, links: seq<string>,
                                       original: FootprintText)
    requires c.Lawful() && forall l :: l in links ==> Outside(c, reference, l)
    ensures var r := CopyLinks(c, reference, models, links, original);
      && (r.Ok? <==> CanCopyAll(c, reference, models, links))
      && (r.Ok? ==> Copied(c, reference, models, links, original, r.value))
    decreases |links|
  {
    hide Copied, CanCopyAll, Outside, CopyLink;
    if links == [] {
      NothingCopied(c, reference, models, original);
    } else {
      var rest, link := links[..|links| - 1], links[|links| - 1];
      assert links == rest + [link];
      CopyLinksIs(c, reference, models, rest, original);
      var before := CopyLinks(c, reference, models, rest, original);
      if before.Ok? {
        CopyLinkIs(c, reference, models, rest, link, original, before.value);
      } else {
        FewerCanCopy(c, reference, models, rest, link);
      }
    }
  }

  lemma NothingCopied(c: Catalog, reference: string, models: seq<TeamFile>, original: FootprintText)
    ensures CanCopyAll(c, reference, models, [])
    ensures Copied(c, reference, models, [], original, Copying(original, [], []))
  {
    assert Rewritten(c, reference, models, [], original).links == original.links;
  }

  lemma FewerCanCopy(c: Catalog, reference: string, models: seq<TeamFile>, links: seq<string>, link: string)
    ensures CanCopyAll(c, reference, models, links + [link]) ==> CanCopyAll(c, reference, models, links)
  {
    hide CanCopy, LinkPlace;
    assert forall l :: l in links ==> l in links + [link];
  }

  lemma {:induction false} OutsideLinksAre(c: Catalog, reference: string, links: seq<string>)
    ensures forall l :: l in OutsideLinks(c, reference, links) <==> l in links && Outside(c, reference, l)
  {
    hide Outside;
    if links != [] {
      var rest, last := links[..|links| - 1], links[|links| - 1];
      assert links == rest + [last];
      OutsideLinksAre(c, reference, rest);
    }
  }

  lemma {:induction false} LinksWithoutAre(links: seq<string>, left: string -> bool)
    ensures forall l :: l in LinksWithout(links, left) <==> l in links && !left(l)
  {
    if links != [] {
      LinksWithoutAre(links[1..], left);
      assert forall l :: l in links <==> l == links[0] || l in links[1..];
    }
  }

  /** After rewriting, no link of the text is outside the library. */
  lemma {:induction false} NoneOutside(c: Catalog, reference: string, models: seq<TeamFile>, original: FootprintText)
    requires c.Lawful()
    requires CanCopyAll(c, reference, models, OutsideLinks(c, reference, original.links))
    ensures var text := Rewritten(c, reference, models, OutsideLinks(c, reference, original.links), original);
      forall l :: l in text.links ==> !Outside(c, reference, l)
  {
    hide Outside, ModelFor, PlaceOf;
    var links := OutsideLinks(c, reference, original.links);
    OutsideLinksAre(c, reference, original.links);
    var text := Rewritten(c, reference, models, links, original);
    forall l | l in text.links ensures !Outside(c, reference, l) {
      var i :| 0 <= i < |text.links| && text.links[i] == l;
      var was := original.links[i];
      if was in links {
        assert CanCopy(c, reference, models, was);
        OwnLinkIsInside(c, reference, LinkPlace(c, reference, models, was));
      }
    }
  }

  lemma OwnLinkIsInside(c: Catalog, reference: string, place: string)
    requires c.Lawful() && c.isPlace(place)
    ensures !Outside(c, reference, c.linkTo(place))
  {
  }

  // ----- the results -----

  /** What a copied footprint is saved as: with No 3D model, its text without
      the outside links and nothing else; otherwise its text with each outside
      link, and no other, at the place of its model, after one upload for each
      place. Either way no link of the saved text is outside the library. */
  ghost predicate SavedWell(c: Catalog, file: TeamFile, models: seq<TeamFile>, reference: string,
                            original: FootprintText, uploads: seq<CadUpload>)
  {
    && uploads != []
    && var last := uploads[|uploads| - 1];
    && last.role == FootprintRole && last.reference == reference && last.contents.Linked?
    && (forall l :: l in last.contents.text.links ==> !Outside(c, reference, l))
    && last.installed == InstalledSource(file)
    && last.source == (if last.contents.text == original then SourceOf(file)
                       else Shortened(SourceOf(file) + ChangeOf(file)))
    && (file.noModels ==>
          && |uploads| == 1 && last.contents.text.rest == original.rest
          && last.contents.text.links == LinksWithout(original.links, l => Outside(c, reference, l)))
    && (!file.noModels ==>
          var links := OutsideLinks(c, reference, original.links);
          && last.contents.text == Rewritten(c, reference, models, links, original)
          && CanCopyAll(c, reference, models, links)
          && OneUploadEach(c, reference, models, links, uploads[..|uploads| - 1]))
  }

  ghost predicate MaySave(c: Catalog, file: TeamFile, models: seq<TeamFile>, reference: string,
                          original: FootprintText)
  {
    && c.checkFootprint(original, reference).Ok?
    && c.checkFootprint(SavedText(c, file, models, reference, original), reference).Ok?
    && (file.noModels || CanCopyAll(c, reference, models, OutsideLinks(c, reference, original.links)))
  }

  function SavedText(c: Catalog, file: TeamFile, models: seq<TeamFile>, reference: string, original: FootprintText)
    : FootprintText
  {
    if file.noModels then original.(links := LinksWithout(original.links, l => Outside(c, reference, l)))
    else Rewritten(c, reference, models, OutsideLinks(c, reference, original.links), original)
  }

  /** Copying succeeds exactly with No 3D model or when every outside link can be
      copied to a place of its own; then no link of the text is outside. */
  lemma {:induction false} CopyOfIs(c: Catalog, file: TeamFile, models: seq<TeamFile>, reference: string,
                                    original: FootprintText)
    requires c.Lawful()
    ensures var links, r := OutsideLinks(c, reference, original.links), CopyOf(c, file, models, reference, original);
      && (r.Ok? <==> file.noModels || CanCopyAll(c, reference, models, links))
      && (r.Ok? ==>
            && r.value.text == SavedText(c, file, models, reference, original)
            && (forall l :: l in r.value.text.links ==> !Outside(c, reference, l))
            && (file.noModels ==> r.value.uploads == [])
            && (!file.noModels ==> OneUploadEach(c, reference, models, links, r.value.uploads))
            && (r.value.text != original ==> (r.value.uploads == [] <==> file.noModels)))
  {
    hide Outside, CanCopyAll, CopyLinks, IsUploadOf, Rewritten;
    var links := OutsideLinks(c, reference, original.links);
    if file.noModels {
      LinksWithoutAre(original.links, l => Outside(c, reference, l));
    } else {
      OutsideLinksAre(c, reference, original.links);
      CopyLinksIs(c, reference, models, links, original);
      if CanCopyAll(c, reference, models, links) {
        NoneOutside(c, reference, models, original);
        if links == [] {
          NothingCopied(c, reference, models, original);
          NothingRewritten(c, reference, models, original);
        } else {
          assert links[0] in links;
        }
      }
    }
  }

  lemma NothingRewritten(c: Catalog, reference: string, models: seq<TeamFile>, original: FootprintText)
    ensures Rewritten(c, reference, models, [], original) == original
  {
    assert Rewritten(c, reference, models, [], original).links == original.links;
  }

  /** Saving succeeds exactly when the footprint may be saved as `reference`,
      before and after its links change, and every outside link can be copied to
      a place of its own, or No 3D model was chosen; then it is saved well. */
  lemma CopiedFootprintIsSavedWell(c: Catalog, file: TeamFile, models: seq<TeamFile>, reference: string)
    requires c.Lawful()
    ensures var read, r := c.readFootprint(file.base64), UploadsFor(c, file, models, reference);
      && (r.Ok? ==> read.Ok? && SavedWell(c, file, models, reference, read.value.0, r.value))
      && (r.Ok? <==> read.Ok? && MaySave(c, file, models, reference, read.value.0))
  {
    hide Outside, Rewritten, CanCopyAll, OneUploadEach, CopyOf, Shortened, LinksWithout, OutsideLinks, SourceOf;
    var read := c.readFootprint(file.base64);
    if read.Ok? {
      var original := read.value.0;
      CopyOfIs(c, file, models, reference, original);
      var r := UploadsFor(c, file, models, reference);
      if r.Ok? {
        var so := CopyOf(c, file, models, reference, original).value;
        assert r.value[..|r.value| - 1] == so.uploads;
      }
    }
  }

  // ----- what the history says -----

  predicate LooksCut(source: string) {
    |source| == MAX_FILE_NAME && source[MAX_FILE_NAME - 1] == ELLIPSIS
  }

  lemma CutsToItselfExactly(source: string, more: string)
    requires more != []
    ensures Shortened(source + more) == source <==> LooksCut(source)
  {
    if |source + more| > MAX_FILE_NAME && |source| >= MAX_FILE_NAME {
      assert (source + more)[..MAX_FILE_NAME - 1] == source[..MAX_FILE_NAME - 1];
      if LooksCut(source) {
        assert source == source[..MAX_FILE_NAME - 1] + [ELLIPSIS];
      }
    }
  }

  /** What the history of `file` says after a change. */
  function ChangeOf(file: TeamFile): string {
    if file.noModels then LEFT_OUT else PATH_SET
  }

  /** `source` ends with `change`. */
  ghost predicate Says(source: string, change: string) {
    exists before :: source == before + change
  }

  lemma CutSaysExactly(source: string, change: string)
    requires change != [] && change[|change| - 1] != ELLIPSIS
    ensures Says(Shortened(source + change), change) <==> |source| + |change| <= MAX_FILE_NAME
  {
    var cut := Shortened(source + change);
    if Says(cut, change) {
      var before :| cut == before + change;
      assert cut[|cut| - 1] == change[|change| - 1];
    }
  }

  /** The history says how a footprint was changed exactly when its own source
      leaves room for it; else what it says is cut. Of a footprint that was not
      changed it has the source as it is. */
  lemma HistorySaysExactly(c: Catalog, file: TeamFile, models: seq<TeamFile>, reference: string)
    requires c.Lawful() && UploadsFor(c, file, models, reference).Ok?
    ensures var uploads := UploadsFor(c, file, models, reference).value;
      && uploads != []
      && var last, original := uploads[|uploads| - 1], c.readFootprint(file.base64).value.0;
      && last.contents.Linked?
      && (last.contents.text == original ==> last.source == SourceOf(file))
      && (last.contents.text != original ==>
            (Says(last.source, ChangeOf(file)) <==> |SourceOf(file)| + |ChangeOf(file)| <= MAX_FILE_NAME))
  {
    hide Outside, Rewritten, CanCopyAll, OneUploadEach, UploadsFor;
    hide Shortened, LinksWithout, OutsideLinks, Says, SourceOf;
    CopiedFootprintIsSavedWell(c, file, models, reference);
    CutSaysExactly(SourceOf(file), ChangeOf(file));
  }

  /** The history gives a footprint the source of an unchanged one exactly when it
      is not changed or its own source is cut, or looks so. */
  lemma SourceStaysExactly(c: Catalog, file: TeamFile, models: seq<TeamFile>, reference: string)
    requires c.Lawful() && UploadsFor(c, file, models, reference).Ok?
    ensures var uploads := UploadsFor(c, file, models, reference).value;
      && uploads != []
      && var last := uploads[|uploads| - 1];
      && last.contents.Linked?
      && (last.source == SourceOf(file)
          <==> last.contents.text == c.readFootprint(file.base64).value.0 || LooksCut(SourceOf(file)))
  {
    hide Outside, Rewritten, CanCopyAll, OneUploadEach, UploadsFor, Shortened, LinksWithout, OutsideLinks, LooksCut;
    CopiedFootprintIsSavedWell(c, file, models, reference);
    CutsToItselfExactly(SourceOf(file), ChangeOf(file));
  }

  /** A source made for a copy is cut like the history's. So it looks cut
      exactly when it was too long, or ends as if it had been. */
  lemma MadeSourceLooksCut(long: string)
    ensures LooksCut(Shortened(long)) <==> |long| > MAX_FILE_NAME || LooksCut(long)
    ensures |long| > MAX_FILE_NAME ==>
      Shortened(Shortened(long) + PATH_SET) == Shortened(long) == Shortened(Shortened(long) + LEFT_OUT)
  {
    CutsToItselfExactly(Shortened(long), PATH_SET);
    CutsToItselfExactly(Shortened(long), LEFT_OUT);
  }

  /** Two file names come to one exactly when they differ only in characters
      that Windows forbids and `_`, so places must be compared. */
  lemma FileNamesMeetExactly(a: string, b: string)
    ensures ModelFileName(a) == ModelFileName(b) <==>
      |a| == |b| && forall i :: 0 <= i < |a| ==> a[i] == b[i] || (BecomesUnderscore(a[i]) && BecomesUnderscore(b[i]))
  {
    if ModelFileName(a) == ModelFileName(b) {
      forall i | 0 <= i < |a| ensures a[i] == b[i] || (BecomesUnderscore(a[i]) && BecomesUnderscore(b[i])) {
        assert ModelFileName(a)[i] == ModelFileName(b)[i];
      }
    }
  }

  predicate BecomesUnderscore(c: char) {
    IsForbidden(c) || c == '_'
  }

  // ----- several footprints in one save -----

  /** What an upload is for. */
  function Target(u: CadUpload): (Role, string) {
    (u.role, u.reference)
  }

  function Targets(uploads: seq<CadUpload>): set<(Role, string)> {
    set u | u in uploads :: Target(u)
  }

  /** `more` after `sent`, without what is sent for the same place already. */
  function Merged(sent: seq<CadUpload>, more: seq<CadUpload>): seq<CadUpload> {
    if more == [] then sent
    else
      var before := Merged(sent, more[..|more| - 1]);
      var u := more[|more| - 1];
      if Target(u) in Targets(before) then before else before + [u]
  }

  function CopiedModels(files: seq<TeamFile>): seq<TeamFile> {
    if files == [] then []
    else (if files[0].kind == ModelFile && files[0].installed.Some? then [files[0]] else []) + CopiedModels(files[1..])
  }

  predicate IsCopied(file: TeamFile) {
    file.kind == FootprintFile && file.installed.Some?
  }

  /** The uploads of one file of the save; none when it is not a copied footprint. */
  function FileUploads(c: Catalog, file: TeamFile, models: seq<TeamFile>, choices: seq<string>)
    : Result<seq<CadUpload>>
  {
    if !IsCopied(file) then Ok([])
    else
      var read := c.readFootprint(file.base64);
      if read.Err? then Err(read.error)
      else
        var reference := ChoiceFor(file, read.value.1, choices);
        if reference.None? then Err("is not one of the part's footprints")
        else UploadsFor(c, file, models, reference.value)
  }

  /** What all copied footprints send: the first upload for each place. */
  function SavedUploads(c: Catalog, files: seq<TeamFile>, choices: seq<string>): seq<CadUpload> {
    Merged([], AllUploads(c, files, CopiedModels(files), choices))
  }

  ghost predicate AllCanSend(c: Catalog, files: seq<TeamFile>, models: seq<TeamFile>, choices: seq<string>) {
    forall f :: f in files ==> FileUploads(c, f, models, choices).Ok?
  }

  method CopyFootprints(c: Catalog, files: seq<TeamFile>, choices: seq<string>) returns (r: Result<seq<CadUpload>>)
    ensures r.Ok? <==> AllCanSend(c, files, CopiedModels(files), choices)
    ensures r.Ok? ==> r.value == SavedUploads(c, files, choices)
  {
    hide FileUploads, UploadsFor;
    var models := CopiedModels(files);
    var uploads: seq<CadUpload> := [];
    for i := 0 to |files|
      invariant forall f :: f in files[..i] ==> FileUploads(c, f, models, choices).Ok?
      invariant uploads == Merged([], AllUploads(c, files[..i], models, choices))
    {
      assert files[..i + 1][..i] == files[..i];
      var one := FileUploads(c, files[i], models, choices);
      if one.Err? {
        assert files[i] in files;
        return one;
      }
      ghost var before := AllUploads(c, files[..i], models, choices);
      assert AllUploads(c, files[..i + 1], models, choices) == before + one.value;
      MergedTwice([], before, one.value);
      uploads := Merged(uploads, one.value);
    }
    assert files[..|files|] == files;
    r := Ok(uploads);
  }

  /** Everything the files would send, in order. */
  function AllUploads(c: Catalog, files: seq<TeamFile>, models: seq<TeamFile>, choices: seq<string>): seq<CadUpload> {
    if files == [] then []
    else
      var n := |files| - 1;
      var one := FileUploads(c, files[n], models, choices);
      AllUploads(c, files[..n], models, choices) + if one.Ok? then one.value else []
  }

  lemma {:induction false} MergedTwice(sent: seq<CadUpload>, one: seq<CadUpload>, two: seq<CadUpload>)
    ensures Merged(Merged(sent, one), two) == Merged(sent, one + two)
    decreases |two|
  {
    if two == [] {
      assert one + two == one;
    } else {
      var rest := two[..|two| - 1];
      MergedTwice(sent, one, rest);
      assert (one + two)[..|one + two| - 1] == one + rest;
    }
  }

  ghost predicate AllDiffer(uploads: seq<CadUpload>) {
    forall i, j :: 0 <= i < j < |uploads| ==> Target(uploads[i]) != Target(uploads[j])
  }

  lemma {:induction false} MergedTargets(all: seq<CadUpload>)
    ensures Targets(Merged([], all)) == Targets(all)
  {
    if all != [] {
      var rest, last := all[..|all| - 1], all[|all| - 1];
      MergedTargets(rest);
      assert all == rest + [last];
      TargetsOfMore(rest, last);
      TargetsOfMore(Merged([], rest), last);
    }
  }

  lemma TargetsOfMore(uploads: seq<CadUpload>, last: CadUpload)
    ensures Targets(uploads + [last]) == Targets(uploads) + {Target(last)}
  {
    hide Target;
    forall t | t in Targets(uploads) + {Target(last)} ensures t in Targets(uploads + [last]) {
      if t == Target(last) {
        assert last in uploads + [last];
      } else {
        var u :| u in uploads && Target(u) == t;
        assert u in uploads + [last];
      }
    }
  }

  lemma {:induction false} MergedDiffers(all: seq<CadUpload>)
    ensures AllDiffer(Merged([], all))
  {
    hide Target;
    if all != [] {
      var rest, last := all[..|all| - 1], all[|all| - 1];
      MergedDiffers(rest);
      var before := Merged([], rest);
      if Target(last) !in Targets(before) {
        forall i | 0 <= i < |before| ensures Target(before[i]) != Target(last) {
          assert before[i] in before;
        }
      }
    }
  }

  lemma {:induction false} MergedIs(sent: seq<CadUpload>, more: seq<CadUpload>)
    requires AllDiffer(more)
    ensures forall u :: u in Merged(sent, more) <==> u in sent || (u in more && Target(u) !in Targets(sent))
    ensures Targets(Merged(sent, more)) == Targets(sent) + Targets(more)
    decreases |more|
  {
    hide Target;
    if more != [] {
      var n := |more| - 1;
      var rest, last := more[..n], more[n];
      assert more == rest + [last];
      MergedIs(sent, rest);
      TargetsOfMore(rest, last);
      TargetsOfMore(Merged(sent, rest), last);
      forall u | u in rest ensures Target(u) != Target(last) {
        var k :| 0 <= k < n && rest[k] == u;
        assert Target(more[k]) != Target(more[n]);
      }
    }
  }

  // ----- what one file sends -----

  predicate Sends(c: Catalog, file: TeamFile, models: seq<TeamFile>, choices: seq<string>, u: CadUpload) {
    FileUploads(c, file, models, choices).Ok? && u in FileUploads(c, file, models, choices).value
  }

  /** The footprint itself, as the copied footprint `file` sends it. */
  function OwnText(c: Catalog, file: TeamFile, models: seq<TeamFile>, choices: seq<string>): (own: Option<CadUpload>)
    ensures own.Some? ==> own.value.role == FootprintRole
  {
    var r := FileUploads(c, file, models, choices);
    if r.Err? || r.value == [] then None else Some(r.value[|r.value| - 1])
  }

  /** The model sent for the link `link` of the copied footprint `file`: the first
      model read for a link of that text. */
  function OwnModel(c: Catalog, file: TeamFile, models: seq<TeamFile>, choices: seq<string>, link: string)
    : (own: Option<CadUpload>)
    ensures own.Some? ==> own.value.role == Model
  {
    var read := c.readFootprint(file.base64);
    if !IsCopied(file) || file.noModels || read.Err? then None
    else
      var reference := ChoiceFor(file, read.value.1, choices);
      if reference.None? || link !in OutsideLinks(c, reference.value, read.value.0.links) then None
      else
        var model := ModelFor(models, link);
        if model.None? then None else Some(ModelUpload(c, reference.value, model.value))
  }

  ghost predicate DifferentModels(uploads: seq<CadUpload>) {
    && (forall u :: u in uploads ==> u.role == Model)
    && (forall i, j :: 0 <= i < j < |uploads| ==> uploads[i].reference != uploads[j].reference)
  }

  lemma {:induction false} CopyLinksDiffer(c: Catalog, reference: string, models: seq<TeamFile>, links: seq<string>,
                                           text: FootprintText)
    ensures var r := CopyLinks(c, reference, models, links, text); r.Ok? ==> DifferentModels(r.value.uploads)
    decreases |links|
  {
    hide ModelFor, PlaceOf, Clashes, SourceOf, InstalledSource;
    if links != [] {
      var rest, link := links[..|links| - 1], links[|links| - 1];
      CopyLinksDiffer(c, reference, models, rest, text);
      var before := CopyLinks(c, reference, models, rest, text);
      if before.Ok? {
        OneMoreDiffers(c, reference, models, link, before.value);
      }
    }
  }

  lemma OneMoreDiffers(c: Catalog, reference: string, models: seq<TeamFile>, link: string, so: Copying)
    requires DifferentModels(so.uploads)
    ensures var r := CopyLink(c, reference, models, link, so); r.Ok? ==> DifferentModels(r.value.uploads)
  {
    hide ModelFor, PlaceOf, Clashes, SourceOf, InstalledSource;
    var r := CopyLink(c, reference, models, link, so);
    if r.Ok? && r.value.uploads != so.uploads {
      forall i | 0 <= i < |so.uploads| ensures so.uploads[i].reference != r.value.uploads[|so.uploads|].reference {
        assert so.uploads[i] in so.uploads;
      }
    }
  }

  /** A file sends nothing twice to one place, and its text last. */
  lemma FileSendsOnce(c: Catalog, file: TeamFile, models: seq<TeamFile>, choices: seq<string>)
    requires FileUploads(c, file, models, choices).Ok?
    ensures AllDiffer(FileUploads(c, file, models, choices).value)
    ensures OwnText(c, file, models, choices).Some? <==> IsCopied(file)
    ensures forall u: CadUpload :: u.role == FootprintRole ==>
      (Sends(c, file, models, choices, u) <==> OwnText(c, file, models, choices) == Some(u))
  {
    hide CopyLinks, OutsideLinks, LinksWithout, Outside, Shortened, SourceOf, InstalledSource, ChoiceFor;
    if IsCopied(file) {
      var original := c.readFootprint(file.base64).value.0;
      var reference := ChoiceFor(file, c.readFootprint(file.base64).value.1, choices).value;
      CopyLinksDiffer(c, reference, models, OutsideLinks(c, reference, original.links), original);
      var one := FileUploads(c, file, models, choices).value;
      assert DifferentModels(one[..|one| - 1]);
      LastIsText(one);
    }
  }

  /** A footprint is sent under the choice it was resolved to. */
  lemma TextIsForItsChoice(c: Catalog, file: TeamFile, models: seq<TeamFile>, choices: seq<string>)
    requires IsCopied(file) && FileUploads(c, file, models, choices).Ok?
    ensures var read, text := c.readFootprint(file.base64), OwnText(c, file, models, choices);
      read.Ok? && text.Some? && ChoiceFor(file, read.value.1, choices) == Some(text.value.reference)
  {
    hide CopyOf, Outside, Shortened, SourceOf, InstalledSource, ChoiceFor;
  }

  lemma LastIsText(one: seq<CadUpload>)
    requires one != [] && DifferentModels(one[..|one| - 1]) && one[|one| - 1].role == FootprintRole
    ensures AllDiffer(one)
    ensures forall u :: u in one && u.role == FootprintRole ==> u == one[|one| - 1]
  {
    var rest, last := one[..|one| - 1], one[|one| - 1];
    assert one == rest + [last];
    forall i | 0 <= i < |rest| ensures rest[i].role == Model {
      assert rest[i] in rest;
    }
  }

  function ModelAmong(c: Catalog, reference: string, models: seq<TeamFile>, links: seq<string>, link: string)
    : Option<CadUpload>
  {
    if link in links && ModelFor(models, link).Some? then Some(ModelUpload(c, reference, ModelFor(models, link).value))
    else None
  }

  /** The models a file sends are those of its links. */
  lemma FileSendsOwn(c: Catalog, file: TeamFile, models: seq<TeamFile>, choices: seq<string>, u: CadUpload)
    requires c.Lawful() && FileUploads(c, file, models, choices).Ok? && u.role == Model
    ensures Sends(c, file, models, choices, u) <==> exists l :: OwnModel(c, file, models, choices, l) == Some(u)
  {
    hide UploadsFor, Outside, OutsideLinks, ModelFor, PlaceOf, SourceOf, InstalledSource, Rewritten, LinksWithout;
    hide ChoiceFor, Shortened;
    if IsCopied(file) {
      var reference := ChoiceFor(file, c.readFootprint(file.base64).value.1, choices).value;
      CopiedFootprintIsSavedWell(c, file, models, reference);
      var one := FileUploads(c, file, models, choices).value;
      var original := c.readFootprint(file.base64).value.0;
      assert SavedWell(c, file, models, reference, original, one);
      assert one == one[..|one| - 1] + [one[|one| - 1]];
      if !file.noModels {
        OwnAreUploads(c, file, models, choices, reference, OutsideLinks(c, reference, original.links), one, u);
      }
    }
  }

  lemma OwnAreUploads(c: Catalog, file: TeamFile, models: seq<TeamFile>, choices: seq<string>, reference: string,
                      links: seq<string>, one: seq<CadUpload>, u: CadUpload)
    requires one != [] && one[|one| - 1].role == FootprintRole && u.role == Model
    requires OneUploadEach(c, reference, models, links, one[..|one| - 1])
    requires forall l :: OwnModel(c, file, models, choices, l) == ModelAmong(c, reference, models, links, l)
    ensures u in one <==> exists l :: OwnModel(c, file, models, choices, l) == Some(u)
  {
    hide ModelFor, PlaceOf, SourceOf, InstalledSource, OwnModel;
    assert one == one[..|one| - 1] + [one[|one| - 1]];
    if u in one {
      assert IsUploadOf(c, reference, models, links, u);
      var l :| l in links && ModelFor(models, l).Some? && u == ModelUpload(c, reference, ModelFor(models, l).value);
      assert OwnModel(c, file, models, choices, l) == Some(u);
    }
    if l :| OwnModel(c, file, models, choices, l) == Some(u) {
      assert ModelAmong(c, reference, models, links, l) == Some(u);
    }
  }

  // ----- what is saved of it -----

  /** One of the files sends something to `t`. */
  ghost predicate IsTaken(c: Catalog, files: seq<TeamFile>, models: seq<TeamFile>, choices: seq<string>,
                          t: (Role, string))
  {
    exists j: nat, u :: j < |files| && SendsTo(c, files[j], models, choices, u, t)
  }

  predicate SendsTo(c: Catalog, file: TeamFile, models: seq<TeamFile>, choices: seq<string>, u: CadUpload,
                    t: (Role, string))
  {
    Sends(c, file, models, choices, u) && Target(u) == t
  }

  /** The first file that sends anything to the place of `u` sends `u`. */
  ghost predicate IsFirst(c: Catalog, files: seq<TeamFile>, models: seq<TeamFile>, choices: seq<string>, u: CadUpload) {
    exists j: nat :: j < |files| && Sends(c, files[j], models, choices, u)
      && !IsTaken(c, files[..j], models, choices, Target(u))
  }

  lemma TakenOneMore(c: Catalog, files: seq<TeamFile>, models: seq<TeamFile>, choices: seq<string>, last: TeamFile,
                     t: (Role, string))
    ensures IsTaken(c, files + [last], models, choices, t) <==>
      IsTaken(c, files, models, choices, t) || exists u :: SendsTo(c, last, models, choices, u, t)
  {
    hide SendsTo;
    var more := files + [last];
    if IsTaken(c, files, models, choices, t) {
      var j: nat, u :| j < |files| && SendsTo(c, files[j], models, choices, u, t);
      assert more[j] == files[j];
    }
    if u :| SendsTo(c, last, models, choices, u, t) {
      assert more[|files|] == last;
    }
  }

  lemma FirstOneMore(c: Catalog, files: seq<TeamFile>, models: seq<TeamFile>, choices: seq<string>, last: TeamFile,
                     u: CadUpload)
    ensures IsFirst(c, files + [last], models, choices, u) <==>
      IsFirst(c, files, models, choices, u)
      || (!IsTaken(c, files, models, choices, Target(u)) && Sends(c, last, models, choices, u))
  {
    hide Sends, IsTaken, Target;
    var more := files + [last];
    forall j: nat | j <= |files| ensures more[..j] == files[..j] {
    }
    assert files[..|files|] == files;
    if IsFirst(c, files, models, choices, u) {
      var j: nat :| j < |files| && Sends(c, files[j], models, choices, u)
        && !IsTaken(c, files[..j], models, choices, Target(u));
      assert more[j] == files[j];
    }
    if Sends(c, last, models, choices, u) && !IsTaken(c, files, models, choices, Target(u)) {
      assert more[|files|] == last;
    }
  }

  lemma {:induction false} FirstsAreMerged(c: Catalog, files: seq<TeamFile>, models: seq<TeamFile>,
                                           choices: seq<string>)
    requires AllCanSend(c, files, models, choices)
    ensures var all := AllUploads(c, files, models, choices);
      && (forall t :: t in Targets(all) <==> IsTaken(c, files, models, choices, t))
      && (forall u :: u in Merged([], all) <==> IsFirst(c, files, models, choices, u))
  {
    if files != [] {
      var rest, last := files[..|files| - 1], files[|files| - 1];
      assert files == rest + [last];
      FirstsAreMerged(c, rest, models, choices);
      OneMoreFile(c, rest, models, choices, last);
    }
  }

  lemma {:induction false} OneMoreFile(c: Catalog, rest: seq<TeamFile>, models: seq<TeamFile>, choices: seq<string>,
                                       last: TeamFile)
    requires FileUploads(c, last, models, choices).Ok?
    requires var all := AllUploads(c, rest, models, choices);
      && (forall t :: t in Targets(all) <==> IsTaken(c, rest, models, choices, t))
      && (forall u :: u in Merged([], all) <==> IsFirst(c, rest, models, choices, u))
    ensures var files := rest + [last];
      var all := AllUploads(c, files, models, choices);
      && (forall t :: t in Targets(all) <==> IsTaken(c, files, models, choices, t))
      && (forall u :: u in Merged([], all) <==> IsFirst(c, files, models, choices, u))
  {
    var files, before := rest + [last], AllUploads(c, rest, models, choices);
    var one := FileUploads(c, last, models, choices).value;
    assert files[..|files| - 1] == rest;
    assert AllUploads(c, files, models, choices) == before + one;
    assert forall u :: Sends(c, last, models, choices, u) <==> u in one;
    hide FileUploads, IsTaken, IsFirst, AllUploads, Target, Sends, Merged, AllDiffer;
    FileSendsOnce(c, last, models, choices);
    MergedTwice([], before, one);
    MergedTargets(before);
    MergedIs(Merged([], before), one);
    MergedTargets(before + one);
    forall u ensures u in Merged([], before + one) <==> IsFirst(c, files, models, choices, u) {
      FirstOneMore(c, rest, models, choices, last, u);
    }
    forall t ensures t in Targets(before + one) <==> IsTaken(c, files, models, choices, t) {
      TakenOneMore(c, rest, models, choices, last, t);
      OneSendsTo(c, last, models, choices, one, t);
    }
  }

  lemma OneSendsTo(c: Catalog, file: TeamFile, models: seq<TeamFile>, choices: seq<string>, one: seq<CadUpload>,
                   t: (Role, string))
    requires forall u :: Sends(c, file, models, choices, u) <==> u in one
    ensures t in Targets(one) <==> exists u :: SendsTo(c, file, models, choices, u, t)
  {
    hide Sends, Target;
    if t in Targets(one) {
      var u :| u in one && Target(u) == t;
      assert SendsTo(c, file, models, choices, u, t);
    }
  }

  /** Of all that the copied footprints send, each place gets exactly one upload,
      a footprint's reference as well as a model's place: what the first file
      that sends anything there sends. */
  lemma {:induction false} UploadIsSavedExactly(c: Catalog, files: seq<TeamFile>, choices: seq<string>)
    requires AllCanSend(c, files, CopiedModels(files), choices)
    ensures var models, saved := CopiedModels(files), SavedUploads(c, files, choices);
      && AllDiffer(saved)
      && (forall u :: u in saved <==> IsFirst(c, files, models, choices, u))
      && (forall f, u :: f in files && Sends(c, f, models, choices, u) ==> Target(u) in Targets(saved))
  {
    hide Sends, IsFirst, Target, AllUploads, Merged, CopiedModels, Targets;
    var models := CopiedModels(files);
    var all := AllUploads(c, files, models, choices);
    FirstsAreMerged(c, files, models, choices);
    MergedDiffers(all);
    MergedTargets(all);
    forall f, u | f in files && Sends(c, f, models, choices, u) ensures Target(u) in Targets(all) {
      var j: nat :| j < |files| && files[j] == f;
      assert SendsTo(c, files[j], models, choices, u, Target(u));
      assert IsTaken(c, files, models, choices, Target(u));
    }
  }

  // ----- where a link leads -----

  /** In the text sent for `file`, the link `link` is written to `place`. */
  predicate IsLinked(c: Catalog, file: TeamFile, link: string, text: CadUpload, place: string) {
    && text.contents.Linked? && c.readFootprint(file.base64).Ok?
    && var original, links := c.readFootprint(file.base64).value.0.links, text.contents.text.links;
    && |links| == |original|
    && forall k :: 0 <= k < |original| && original[k] == link ==> links[k] == c.linkTo(place)
  }

  /** The link of `file` leads to its own model: its text is saved with the link
      to the model's place, and so is the model. */
  ghost predicate LeadsToOwn(c: Catalog, file: TeamFile, models: seq<TeamFile>, choices: seq<string>, link: string,
                             saved: seq<CadUpload>)
  {
    var own, text := OwnModel(c, file, models, choices, link), OwnText(c, file, models, choices);
    && own.Some? && own.value in saved && text.Some? && text.value in saved
    && IsLinked(c, file, link, text.value, own.value.reference)
  }

  lemma LinkIsWritten(c: Catalog, file: TeamFile, models: seq<TeamFile>, choices: seq<string>, link: string)
    requires c.Lawful() && FileUploads(c, file, models, choices).Ok?
    requires OwnModel(c, file, models, choices, link).Some?
    ensures OwnText(c, file, models, choices).Some?
    ensures IsLinked(c, file, link, OwnText(c, file, models, choices).value,
                     OwnModel(c, file, models, choices, link).value.reference)
  {
    hide UploadsFor, Outside, OutsideLinks, ModelFor, PlaceOf, SourceOf, InstalledSource, LinksWithout, ChoiceFor;
    hide Shortened, OneUploadEach, CanCopyAll, Rewritten;
    var reference := ChoiceFor(file, c.readFootprint(file.base64).value.1, choices).value;
    CopiedFootprintIsSavedWell(c, file, models, reference);
    var original, one := c.readFootprint(file.base64).value.0, FileUploads(c, file, models, choices).value;
    assert SavedWell(c, file, models, reference, original, one);
    var own, text := OwnModel(c, file, models, choices, link).value, OwnText(c, file, models, choices).value;
    assert text == one[|one| - 1];
    assert own.reference == LinkPlace(c, reference, models, link);
    RewritesLink(c, reference, models, OutsideLinks(c, reference, original.links), original, link);
  }

  lemma RewritesLink(c: Catalog, reference: string, models: seq<TeamFile>, links: seq<string>, original: FootprintText,
                     link: string)
    requires link in links
    ensures var text := Rewritten(c, reference, models, links, original);
      && |text.links| == |original.links|
      && forall k :: 0 <= k < |original.links| && original.links[k] == link ==>
           text.links[k] == c.linkTo(LinkPlace(c, reference, models, link))
  {
  }

  /** A link of a copied footprint leads to its own model exactly when the first
      file with a model for that place sends the same, and the first file for the
      footprint's reference sends the same text. */
  lemma {:induction false} LinkLeadsToOwnExactly(c: Catalog, files: seq<TeamFile>, choices: seq<string>,
                                                 file: TeamFile, link: string)
    requires c.Lawful() && AllCanSend(c, files, CopiedModels(files), choices)
    requires file in files && OwnModel(c, file, CopiedModels(files), choices, link).Some?
    ensures var models := CopiedModels(files);
      var own, text := OwnModel(c, file, models, choices, link).value, OwnText(c, file, models, choices);
      && text.Some?
      && (LeadsToOwn(c, file, models, choices, link, SavedUploads(c, files, choices))
          <==> IsFirst(c, files, models, choices, own) && IsFirst(c, files, models, choices, text.value))
  {
    hide OwnModel, OwnText, IsFirst, SavedUploads, CopiedModels, IsLinked, FileUploads;
    UploadIsSavedExactly(c, files, choices);
    LinkIsWritten(c, file, CopiedModels(files), choices, link);
  }

  /** No two files send different uploads to one place. */
  ghost predicate NoneMeet(c: Catalog, files: seq<TeamFile>, models: seq<TeamFile>, choices: seq<string>) {
    forall f, g, u, v ::
      (f in files && g in files && Sends(c, f, models, choices, u) && Sends(c, g, models, choices, v)) ==>
        (Target(u) == Target(v) ==> u == v)
  }

  /** Every copied footprint is saved as sent. */
  ghost predicate AllTextsSaved(c: Catalog, files: seq<TeamFile>, models: seq<TeamFile>, choices: seq<string>,
                                saved: seq<CadUpload>)
  {
    forall f :: f in files && IsCopied(f) ==>
      OwnText(c, f, models, choices).Some? && OwnText(c, f, models, choices).value in saved
  }

  ghost predicate AllLinksLeadToOwn(c: Catalog, files: seq<TeamFile>, models: seq<TeamFile>, choices: seq<string>,
                                    saved: seq<CadUpload>)
  {
    forall f, l :: f in files && OwnModel(c, f, models, choices, l).Some? ==>
      LeadsToOwn(c, f, models, choices, l, saved)
  }

  /** Everything sent is saved exactly when no two files send different uploads to
      one place. */
  lemma {:induction false} AllAreSavedExactly(c: Catalog, files: seq<TeamFile>, choices: seq<string>)
    requires AllCanSend(c, files, CopiedModels(files), choices)
    ensures var models, saved := CopiedModels(files), SavedUploads(c, files, choices);
      (forall f, u :: f in files && Sends(c, f, models, choices, u) ==> u in saved)
      <==> NoneMeet(c, files, models, choices)
  {
    hide Sends, Target, CopiedModels, SavedUploads, IsTaken;
    var models, saved := CopiedModels(files), SavedUploads(c, files, choices);
    UploadIsSavedExactly(c, files, choices);
    if NoneMeet(c, files, models, choices) {
      forall f, u | f in files && Sends(c, f, models, choices, u) ensures u in saved {
        var v :| v in saved && Target(v) == Target(u);
        assert IsFirst(c, files, models, choices, v);
      }
    }
    if forall f, u :: f in files && Sends(c, f, models, choices, u) ==> u in saved {
      forall f, g, u, v | f in files && g in files && Sends(c, f, models, choices, u) && Sends(c, g, models, choices, v)
        ensures Target(u) == Target(v) ==> u == v
      {
        assert u in saved && v in saved;
      }
    }
  }

  /** Every copied footprint is saved and each of its links leads to its own
      model, exactly when no two files send different uploads to one place: no
      two footprints of one reference differ, and no two models of one place. */
  lemma {:induction false} AllLinksLeadToOwnExactly(c: Catalog, files: seq<TeamFile>, choices: seq<string>)
    requires c.Lawful() && AllCanSend(c, files, CopiedModels(files), choices)
    ensures var models, saved := CopiedModels(files), SavedUploads(c, files, choices);
      AllTextsSaved(c, files, models, choices, saved) && AllLinksLeadToOwn(c, files, models, choices, saved)
      <==> NoneMeet(c, files, models, choices)
  {
    hide OwnModel, OwnText, SavedUploads, CopiedModels, IsLinked, FileUploads, Sends, NoneMeet;
    var models, saved := CopiedModels(files), SavedUploads(c, files, choices);
    AllAreSavedExactly(c, files, choices);
    forall f, u | f in files && Sends(c, f, models, choices, u)
      ensures u.role == FootprintRole ==> IsCopied(f) && OwnText(c, f, models, choices) == Some(u)
      ensures u.role == Model ==> exists l :: OwnModel(c, f, models, choices, l) == Some(u)
    {
      FileSendsOnce(c, f, models, choices);
      if u.role == Model {
        FileSendsOwn(c, f, models, choices, u);
      }
    }
    if NoneMeet(c, files, models, choices) {
      forall f | f in files && IsCopied(f)
        ensures OwnText(c, f, models, choices).Some? && OwnText(c, f, models, choices).value in saved
      {
        FileSendsOnce(c, f, models, choices);
      }
      forall f, l | f in files && OwnModel(c, f, models, choices, l).Some?
        ensures LeadsToOwn(c, f, models, choices, l, saved)
      {
        LinkIsWritten(c, f, models, choices, l);
        FileSendsOnce(c, f, models, choices);
        FileSendsOwn(c, f, models, choices, OwnModel(c, f, models, choices, l).value);
      }
    }
  }
}
