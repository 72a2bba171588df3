/** What saving one copied footprint comes to, in terms of the library and the name
    it is saved under, the links of its text and the files sent for them. */
module PlainSaves {
  import opened Text
  import opened Files
  import opened CopiedFootprints

  /** `tidied` is `name` with `_` for each character Windows forbids. */
  predicate IsTidied(tidied: string, name: string) {
    |tidied| == |name| && forall i :: 0 <= i < |name| ==> tidied[i] == if name[i] in "\"<>|?*" then '_' else name[i]
  }

  predicate IsSentFor(model: TeamFile, link: string) {
    model.installed.Some? && model.installed.value.link == Some(link)
  }

  /** `model` is the first of `models` that was sent for `link`. */
  ghost predicate IsModelFor(models: seq<TeamFile>, model: TeamFile, link: string) {
    exists j :: 0 <= j < |models| && models[j] == model && IsSentFor(model, link)
      && forall i :: 0 <= i < j ==> !IsSentFor(models[i], link)
  }

  lemma {:induction false} ModelForIs(models: seq<TeamFile>, link: string)
    ensures var found := ModelFor(models, link);
      && (found.Some? ==> IsModelFor(models, found.value, link))
      && (forall m :: IsModelFor(models, m, link) ==> found == Some(m))
  {
    if models != [] {
      ModelForIs(models[1..], link);
      var found := ModelFor(models, link);
      if IsSentFor(models[0], link) {
        assert models[0] == models[0] && IsModelFor(models, models[0], link);
      } else {
        if found.Some? {
          var j :| 0 <= j < |models[1..]| && models[1..][j] == found.value && IsSentFor(found.value, link)
            && forall i :: 0 <= i < j ==> !IsSentFor(models[1..][i], link);
          forall i | 0 <= i < j + 1 ensures !IsSentFor(models[i], link) {
            if i > 0 {
              assert models[i] == models[1..][i - 1];
            }
          }
          assert models[j + 1] == found.value;
        }
        forall m | IsModelFor(models, m, link) ensures IsModelFor(models[1..], m, link) {
          var j :| 0 <= j < |models| && models[j] == m && IsSentFor(m, link)
            && forall i :: 0 <= i < j ==> !IsSentFor(models[i], link);
          assert models[1..][j - 1] == m;
        }
      }
    }
  }

  lemma TidiedIs(name: string)
    ensures IsTidied(ModelFileName(name), name)
    ensures forall t :: IsTidied(t, name) ==> t == ModelFileName(name)
  {
  }

  /** `place` is where a library keeps the model of `link`. */
  ghost predicate IsPlaceOfLink(c: Catalog, library: string, models: seq<TeamFile>, link: string, place: string) {
    exists model, tidied :: IsModelFor(models, model, link) && IsTidied(tidied, model.fileName)
      && place == c.placeFor(library, tidied)
  }

  /** The upload of the model of `link`, as it was read, to its place. */
  ghost predicate IsUploadOfLink(c: Catalog, library: string, models: seq<TeamFile>, link: string, u: CadUpload) {
    exists model :: IsModelFor(models, model, link)
      && u.role == Model && u.contents == Bytes(model.base64) && IsFrom(u, model)
      && IsPlaceOfLink(c, library, models, link, u.reference)
  }

  /** The upload says where its file is from: the library and the path there. */
  predicate IsFrom(u: CadUpload, file: TeamFile) {
    && (u.role == Model ==> u.source == if file.sourceLabel.Some? then file.sourceLabel.value else file.fileName)
    && match file.installed
       case None => u.installed == None
       case Some(installed) => u.installed == Some((installed.library, installed.path))
  }

  /** `kept` is `links` at `places`, which go up and are all that are not outside. */
  ghost predicate AreKeptPlaces(kept: seq<string>, links: seq<string>, outside: string -> bool, places: seq<nat>) {
    && |places| == |kept|
    && (forall i, j :: 0 <= i < j < |places| ==> places[i] < places[j])
    && (forall i :: 0 <= i < |places| ==> places[i] < |links| && links[places[i]] == kept[i])
    && (forall k: nat :: k < |links| ==> (k in places <==> !outside(links[k])))
  }

  /** The outside links left out: the others, in order. */
  ghost predicate LeavesOut(kept: seq<string>, links: seq<string>, outside: string -> bool) {
    exists places :: AreKeptPlaces(kept, links, outside, places)
  }

  /** Leaving out from the end, as the places only grow. */
  lemma {:induction false} LinksWithoutJoined(links: seq<string>, last: string, outside: string -> bool)
    ensures LinksWithout(links + [last], outside)
      == LinksWithout(links, outside) + if outside(last) then [] else [last]
  {
    if links == [] {
      assert [last][1..] == [];
    } else {
      assert (links + [last])[1..] == links[1..] + [last];
      LinksWithoutJoined(links[1..], last, outside);
    }
  }

  lemma {:induction false} LinksWithoutLeavesOut(links: seq<string>, outside: string -> bool)
    returns (places: seq<nat>)
    ensures AreKeptPlaces(LinksWithout(links, outside), links, outside, places)
  {
    if links == [] {
      places := [];
    } else {
      var n := |links| - 1;
      assert links == links[..n] + [links[n]];
      LinksWithoutJoined(links[..n], links[n], outside);
      var before := LinksWithoutLeavesOut(links[..n], outside);
      places := before + if outside(links[n]) then [] else [n];
      hide LinksWithout;
      OnePlaceMore(LinksWithout(links[..n], outside), links[..n], links[n], outside, before);
    }
  }

  lemma OnePlaceMore(kept: seq<string>, links: seq<string>, last: string, outside: string -> bool, places: seq<nat>)
    requires AreKeptPlaces(kept, links, outside, places)
    ensures AreKeptPlaces(kept + if outside(last) then [] else [last], links + [last], outside,
                          places + if outside(last) then [] else [|links|])
  {
    var all, more := links + [last], places + if outside(last) then [] else [|links|];
    forall k: nat | k < |all| ensures k in more <==> !outside(all[k]) {
      if k < |links| {
        assert all[k] == links[k] && (k in more <==> k in places);
      } else {
        assert k !in places;
      }
    }
  }

  /** A copied footprint that is saved as `library:name`. With No 3D model it is
      saved alone, without its outside links. Otherwise each outside link, and no
      other, is written to the place of its model, which is uploaded there, and
      nothing else is. No link of the saved text is outside. */
  lemma FootprintIsSavedAs(c: Catalog, file: TeamFile, models: seq<TeamFile>, reference: string, library: string,
                           name: string)
    requires c.Lawful() && ':' !in library && reference == library + ":" + name
    requires UploadsFor(c, file, models, reference).Ok?
    ensures var uploads := UploadsFor(c, file, models, reference).value;
      && c.readFootprint(file.base64).Ok? && uploads != []
      && var original, last := c.readFootprint(file.base64).value.0, uploads[|uploads| - 1];
      && last.role == FootprintRole && last.reference == reference && last.contents.Linked? && IsFrom(last, file)
      && var text := last.contents.text;
      && text.rest == original.rest
      && (forall l :: l in text.links ==> !c.isOutside(library, name, l))
      && (file.noModels ==> |uploads| == 1 && LeavesOut(text.links, original.links, l => c.isOutside(library, name, l)))
      && (!file.noModels ==>
            && |text.links| == |original.links|
            && (forall k :: 0 <= k < |original.links| ==>
                  IsWritten(c, library, name, models, original.links[k], text.links[k], uploads))
            && (forall u :: u in uploads && u.role == Model ==>
                  exists l :: l in original.links && c.isOutside(library, name, l)
                    && IsUploadOfLink(c, library, models, l, u)))
  {
    hide UploadsFor, SplitOnce, ModelFor, CanCopyAll, OneUploadEach, LinksWithout, OutsideLinks, ModelFileName;
    hide Rewritten, IsWritten, IsUploadOfLink, IsSentFor, Shortened, IsPlaceOfLink, AreKeptPlaces, Catalog.Lawful;
    CopiedFootprintIsSavedWell(c, file, models, reference);
    OutsideIs(c, library, name);
    var original, uploads := c.readFootprint(file.base64).value.0, UploadsFor(c, file, models, reference).value;
    if file.noModels {
      SameLeftOut(original.links, l => Outside(c, reference, l), l => c.isOutside(library, name, l));
      var places := LinksWithoutLeavesOut(original.links, l => c.isOutside(library, name, l));
    } else {
      LinksAreWritten(c, file, models, reference, library, name, original, uploads);
    }
  }

  lemma OutsideIs(c: Catalog, library: string, name: string)
    requires ':' !in library
    ensures LibraryOf(library + ":" + name) == library
    ensures forall l :: Outside(c, library + ":" + name, l) == c.isOutside(library, name, l)
  {
    SplitsAtColon(library, name);
  }

  lemma {:induction false} SameLeftOut(links: seq<string>, f: string -> bool, g: string -> bool)
    requires forall l :: f(l) == g(l)
    ensures LinksWithout(links, f) == LinksWithout(links, g)
  {
    if links != [] {
      SameLeftOut(links[1..], f, g);
    }
  }

  lemma LinksAreWritten(c: Catalog, file: TeamFile, models: seq<TeamFile>, reference: string, library: string,
                        name: string, original: FootprintText, uploads: seq<CadUpload>)
    requires LibraryOf(reference) == library
    requires forall l :: Outside(c, reference, l) == c.isOutside(library, name, l)
    requires SavedWell(c, file, models, reference, original, uploads) && !file.noModels
    ensures var text := uploads[|uploads| - 1].contents.text;
      && text.rest == original.rest && |text.links| == |original.links|
      && (forall k :: 0 <= k < |original.links| ==>
            IsWritten(c, library, name, models, original.links[k], text.links[k], uploads))
      && (forall u :: u in uploads && u.role == Model ==>
            exists l :: l in original.links && c.isOutside(library, name, l)
              && IsUploadOfLink(c, library, models, l, u))
  {
    hide ModelFor, LinksWithout, OutsideLinks, ModelFileName, IsUploadOfLink, Shortened, LibraryOf, Outside;
    var links, text := OutsideLinks(c, reference, original.links), uploads[|uploads| - 1].contents.text;
    OutsideLinksAre(c, reference, original.links);
    var sent := uploads[..|uploads| - 1];
    assert uploads == sent + [uploads[|uploads| - 1]];
    forall l | l in links
      ensures ModelFor(models, l).Some?
      ensures IsUploadOfLink(c, library, models, l, ModelUpload(c, reference, ModelFor(models, l).value))
      ensures LinkPlace(c, reference, models, l) == ModelUpload(c, reference, ModelFor(models, l).value).reference
    {
      assert CanCopy(c, reference, models, l);
      UploadIsOfLink(c, library, models, reference, l);
    }
    forall u | u in uploads && u.role == Model
      ensures exists l ::
        l in original.links && c.isOutside(library, name, l) && IsUploadOfLink(c, library, models, l, u)
    {
      assert u in sent && IsUploadOf(c, reference, models, links, u);
    }
  }

  lemma {:induction false} UploadIsOfLink(c: Catalog, library: string, models: seq<TeamFile>, reference: string,
                                          link: string)
    requires LibraryOf(reference) == library && ModelFor(models, link).Some?
    ensures IsUploadOfLink(c, library, models, link, ModelUpload(c, reference, ModelFor(models, link).value))
  {
    ModelForIs(models, link);
    var model := ModelFor(models, link).value;
    hide ModelFor, IsModelFor, ModelFileName, LibraryOf;
    TidiedIs(model.fileName);
    assert IsPlaceOfLink(c, library, models, link, ModelUpload(c, reference, model).reference);
  }

  /** Two outside links whose models go to one place stop the save, as those do
      whose file names differ only in characters that Windows forbids. */
  lemma ModelsThatMeetStop(c: Catalog, file: TeamFile, models: seq<TeamFile>, reference: string, library: string,
                           name: string, l: string, m: string, place: string)
    requires c.Lawful() && ':' !in library && reference == library + ":" + name
    requires c.readFootprint(file.base64).Ok? && !file.noModels && l != m
    requires l in c.readFootprint(file.base64).value.0.links && c.isOutside(library, name, l)
    requires m in c.readFootprint(file.base64).value.0.links && c.isOutside(library, name, m)
    requires IsPlaceOfLink(c, library, models, l, place) && IsPlaceOfLink(c, library, models, m, place)
    ensures UploadsFor(c, file, models, reference).Err?
  {
    hide UploadsFor, SplitOnce, OutsideLinks, Outside, LibraryOf, Catalog.Lawful, IsPlaceOfLink;
    var original := c.readFootprint(file.base64).value.0;
    CopiedFootprintIsSavedWell(c, file, models, reference);
    OutsideIs(c, library, name);
    OutsideLinksAre(c, reference, original.links);
    PlaceOfLinkIs(c, library, models, reference, l, place);
    PlaceOfLinkIs(c, library, models, reference, m, place);
  }

  lemma PlaceOfLinkIs(c: Catalog, library: string, models: seq<TeamFile>, reference: string, link: string,
                      place: string)
    requires LibraryOf(reference) == library && IsPlaceOfLink(c, library, models, link, place)
    ensures LinkPlace(c, reference, models, link) == place
  {
    hide LibraryOf;
    var model, tidied :| IsModelFor(models, model, link) && IsTidied(tidied, model.fileName)
      && place == c.placeFor(library, tidied);
    ModelForIs(models, link);
    TidiedIs(model.fileName);
  }

  /** How a link is written: as it was, or to its model's place. */
  ghost predicate IsWritten(c: Catalog, library: string, name: string, models: seq<TeamFile>, link: string,
                            written: string, uploads: seq<CadUpload>)
  {
    if !c.isOutside(library, name, link) then written == link
    else exists u :: u in uploads && IsUploadOfLink(c, library, models, link, u) && written == c.linkTo(u.reference)
  }

  // ----- what is kept of everything sent -----

  /** `kept` is `sent` at `places`, in order: the first for each role and reference. */
  ghost predicate AreFirsts(kept: seq<CadUpload>, sent: seq<CadUpload>, places: seq<nat>) {
    && |places| == |kept|
    && (forall i, j :: 0 <= i < j < |places| ==> places[i] < places[j])
    && (forall i :: 0 <= i < |places| ==> places[i] < |sent| && sent[places[i]] == kept[i])
    && (forall k: nat :: k < |sent| ==> (k in places <==> IsFirstAt(sent, k)))
  }

  ghost predicate IsFirstAt(sent: seq<CadUpload>, k: nat)
    requires k < |sent|
  {
    forall j :: 0 <= j < k ==> sent[j].role != sent[k].role || sent[j].reference != sent[k].reference
  }

  /** A save keeps, in the order they are sent, the first upload for each place. */
  lemma {:induction false} SavedInOrder(sent: seq<CadUpload>) returns (places: seq<nat>)
    ensures AreFirsts(Merged([], sent), sent, places)
  {
    if sent == [] {
      places := [];
    } else {
      var n := |sent| - 1;
      var rest, last := sent[..n], sent[n];
      assert sent == rest + [last];
      var before := SavedInOrder(rest);
      MergedTargets(rest);
      LastIsFirst(rest, last);
      places := before + if Target(last) in Targets(rest) then [] else [n];
      hide Target, Targets, IsFirstAt;
      FirstsOneMore(Merged([], rest), rest, last, before, Target(last) in Targets(rest));
    }
  }

  lemma LastIsFirst(rest: seq<CadUpload>, last: CadUpload)
    ensures IsFirstAt(rest + [last], |rest|) <==> Target(last) !in Targets(rest)
    ensures forall k: nat :: k < |rest| ==> IsFirstAt(rest + [last], k) == IsFirstAt(rest, k)
  {
    var sent := rest + [last];
    forall k: nat | k < |rest| ensures IsFirstAt(sent, k) == IsFirstAt(rest, k) {
      assert forall j :: 0 <= j <= k ==> sent[j] == rest[j];
    }
    if Target(last) in Targets(rest) {
      var u :| u in rest && Target(u) == Target(last);
      var j :| 0 <= j < |rest| && rest[j] == u;
      assert (rest + [last])[j] == u;
    } else {
      forall j | 0 <= j < |rest| ensures Target(rest[j]) != Target(last) {
        assert rest[j] in rest;
      }
    }
  }

  lemma FirstsOneMore(kept: seq<CadUpload>, rest: seq<CadUpload>, last: CadUpload, places: seq<nat>, known: bool)
    requires AreFirsts(kept, rest, places)
    requires IsFirstAt(rest + [last], |rest|) == !known
    requires forall k: nat :: k < |rest| ==> IsFirstAt(rest + [last], k) == IsFirstAt(rest, k)
    ensures AreFirsts(kept + if known then [] else [last], rest + [last], places + if known then [] else [|rest|])
  {
    hide IsFirstAt;
    var sent, more := rest + [last], places + if known then [] else [|rest|];
    forall k: nat | k < |sent| ensures k in more <==> IsFirstAt(sent, k) {
      if k < |rest| {
        assert k in more <==> k in places;
      } else {
        assert k !in places;
      }
    }
  }

  /** `u` says that it is from the installed file `file`. */
  predicate SaysFrom(u: CadUpload, file: TeamFile) {
    file.installed.Some? && u.installed == Some((file.installed.value.library, file.installed.value.path))
  }

  /** Every upload of a save says the library and the file there that it is from;
      files that were not copied send nothing. */
  lemma {:induction false} SavedSaysWhereFrom(c: Catalog, files: seq<TeamFile>, choices: seq<string>, u: CadUpload)
    requires c.Lawful() && AllCanSend(c, files, CopiedModels(files), choices)
    requires u in SavedUploads(c, files, choices)
    ensures exists f :: f in files && SaysFrom(u, f)
  {
    var models := CopiedModels(files);
    FirstsAreMerged(c, files, models, choices);
    assert IsFirst(c, files, models, choices, u);
    CopiedModelsAreFiles(files);
    hide FileUploads, Catalog.Lawful, CopiedModels, SaysFrom, OwnText, OwnModel;
    var j: nat :| j < |files| && Sends(c, files[j], models, choices, u);
    FileSendsFrom(c, files[j], models, choices, u);
  }

  lemma FileSendsFrom(c: Catalog, file: TeamFile, models: seq<TeamFile>, choices: seq<string>, u: CadUpload)
    requires c.Lawful() && Sends(c, file, models, choices, u)
    ensures SaysFrom(u, file) || exists m :: m in models && SaysFrom(u, m)
  {
    hide Catalog.Lawful, UploadsFor, ChoiceFor, OutsideLinks;
    if u.role == FootprintRole {
      FileSendsOnce(c, file, models, choices);
      TextSaysFrom(c, file, models, choices);
    } else {
      FileSendsOwn(c, file, models, choices, u);
      var l :| OwnModel(c, file, models, choices, l) == Some(u);
      var reference := ChoiceFor(file, c.readFootprint(file.base64).value.1, choices).value;
      ModelForIs(models, l);
      var model := ModelFor(models, l).value;
      hide ModelFor, IsModelFor;
      assert model in models && SaysFrom(ModelUpload(c, reference, model), model);
    }
  }

  lemma TextSaysFrom(c: Catalog, file: TeamFile, models: seq<TeamFile>, choices: seq<string>)
    requires c.Lawful() && FileUploads(c, file, models, choices).Ok? && IsCopied(file)
    ensures OwnText(c, file, models, choices).Some? && SaysFrom(OwnText(c, file, models, choices).value, file)
  {
    hide Catalog.Lawful, UploadsFor, ChoiceFor, OutsideLinks, Outside, LinksWithout, Rewritten, OneUploadEach;
    hide CanCopyAll, Shortened, SourceOf;
    CopiedFootprintIsSavedWell(c, file, models,
                               ChoiceFor(file, c.readFootprint(file.base64).value.1, choices).value);
  }

  lemma {:induction false} CopiedModelsAreFiles(files: seq<TeamFile>)
    ensures forall m :: m in CopiedModels(files) ==> m in files && m.installed.Some?
  {
    if files != [] {
      CopiedModelsAreFiles(files[1..]);
    }
  }
}
