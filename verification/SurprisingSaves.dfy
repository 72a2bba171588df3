/** Saves in which copied footprints do not come out as a reader may expect: a
    link that leads to another footprint's model, a footprint that is not saved,
    and a change the history does not show. */
module SurprisingSaves {
  import opened Text
  import opened Files
  import opened CopiedFootprints

  /** A catalog in which links of one letter are outside, and two footprint files:
      one named `A` with the link `a`, one named `second` with the link `b`. */
  function Small(second: string): Catalog {
    Catalog(
      (base64: string) =>
        if base64 == "1" then Ok((FootprintText([], ["a"]), "A")) else Ok((FootprintText([], ["b"]), second)),
      (text: FootprintText, reference: string) => Ok(()),
      (base64: string, place: string) => Ok(()),
      (library: string, name: string, link: string) => |link| == 1,
      (name: string) => true,
      (library: string, name: string) => library + "/" + name,
      (place: string) => true,
      (place: string) => "own/" + place)
  }

  function SmallFootprint(base64: string, choice: nat): TeamFile {
    TeamFile(FootprintFile, "f.kicad_mod", base64, None, None, None, None, Some(InstalledFile("Lib", "f", None)), false,
             Some(choice))
  }

  function SmallModel(fileName: string, base64: string, link: string): TeamFile {
    var installed := InstalledFile("Lib", "m", Some(link));
    TeamFile(ModelFile, fileName, base64, None, None, None, None, Some(installed), false, None)
  }

  /** Two copied footprints and a model for each. */
  function SmallFiles(one: TeamFile, two: TeamFile): seq<TeamFile> {
    [SmallFootprint("1", 0), SmallFootprint("2", 1), one, two]
  }

  /** Only the first two of four files send anything. */
  ghost predicate TwoSend(c: Catalog, files: seq<TeamFile>, models: seq<TeamFile>, choices: seq<string>) {
    |files| == 4 && !IsCopied(files[2]) && !IsCopied(files[3]) && AllCanSend(c, files, models, choices)
  }

  // ----- what one footprint with one link sends -----

  /** A model at `place`, and the text that links to it. */
  predicate IsPair(one: seq<CadUpload>, reference: string, place: string) {
    && |one| == 2 && one[0].role == Model && one[0].reference == place
    && one[1].role == FootprintRole && one[1].reference == reference
    && one[1].contents == Linked(FootprintText([], ["own/" + place]))
  }

  lemma PlaceOfSmall(second: string, name: string, model: TeamFile)
    requires ModelFileName(model.fileName) == model.fileName
    ensures PlaceOf(Small(second), "g-l:" + name, model) == "g-l/" + model.fileName
  {
    SplitsAtColon("g-l", name);
    assert "g-l:" + name == "g-l" + ":" + name;
    assert "g-l/" + model.fileName == "g-l" + "/" + model.fileName;
  }

  lemma {:induction false} SmallCopies(c: Catalog, second: string, models: seq<TeamFile>, name: string, link: string,
                                       model: TeamFile)
    requires c == Small(second) && |link| == 1
    requires ModelFor(models, link) == Some(model) && ModelFileName(model.fileName) == model.fileName
    ensures var reference, place := "g-l:" + name, "g-l/" + model.fileName;
      && ModelUpload(c, reference, model).reference == place
      && OutsideLinks(c, reference, [link]) == [link]
      && CopyLinks(c, reference, models, [link], FootprintText([], [link]))
           == Ok(Copying(FootprintText([], ["own/" + place]), [ModelUpload(c, reference, model)], [(link, place)]))
  {
    hide ModelFor, SourceOf, InstalledSource, PlaceOf, SplitOnce;
    var reference, place, start := "g-l:" + name, "g-l/" + model.fileName, Copying(FootprintText([], [link]), [], []);
    PlaceOfSmall(second, name, model);
    assert [link][..0] == [];
    assert [] + [(link, place)] == [(link, place)];
    assert [] + [ModelUpload(c, reference, model)] == [ModelUpload(c, reference, model)];
    assert Relinked(start.text, link, "own/" + place) == FootprintText([], ["own/" + place]);
    assert CopyLinks(c, reference, models, [], start.text) == Ok(start);
    assert CopyLinks(c, reference, models, [link], start.text) == CopyLink(c, reference, models, link, start);
  }

  lemma {:induction false} SmallSends(c: Catalog, second: string, file: TeamFile, models: seq<TeamFile>,
                                      choices: seq<string>, name: string, link: string, model: TeamFile)
    requires c == Small(second) && |link| == 1 && IsCopied(file) && !file.noModels
    requires c.readFootprint(file.base64) == Ok((FootprintText([], [link]), name))
    requires ChoiceFor(file, name, choices) == Some("g-l:" + name)
    requires ModelFor(models, link) == Some(model) && ModelFileName(model.fileName) == model.fileName
    ensures var own, r := ModelUpload(c, "g-l:" + name, model), FileUploads(c, file, models, choices);
      && OwnModel(c, file, models, choices, link) == Some(own)
      && r.Ok? && r.value != [] && r.value[0] == own && IsPair(r.value, "g-l:" + name, "g-l/" + model.fileName)
      && OwnText(c, file, models, choices) == Some(r.value[1])
  {
    hide ModelFor, ChoiceFor, Shortened, CopyLinks, OutsideLinks, ModelUpload, SourceOf, InstalledSource;
    SmallCopies(c, second, models, name, link, model);
  }

  lemma {:induction false} ModelsOf(files: seq<TeamFile>, f: TeamFile, g: TeamFile, m: TeamFile, n: TeamFile)
    requires files == [f, g, m, n] && f.kind == FootprintFile && g.kind == FootprintFile
    requires m.kind == ModelFile && n.kind == ModelFile && m.installed.Some? && n.installed.Some?
    ensures CopiedModels(files) == [m, n]
  {
    assert files[1..] == [g, m, n] && [g, m, n][1..] == [m, n] && [m, n][1..] == [n] && [n][1..] == [];
    assert CopiedModels([n]) == [n];
    assert CopiedModels([m, n]) == [m] + [n];
    assert CopiedModels([g, m, n]) == [] + [m, n];
    assert CopiedModels(files) == [] + CopiedModels([g, m, n]);
  }

  lemma SmallIsLawful(second: string)
    ensures Small(second).Lawful()
  {
  }

  lemma SmallReads(second: string, choices: seq<string>, m: TeamFile, n: TeamFile)
    requires choices == ["g-l:A", "g-l:" + second]
    requires m == SmallModel(m.fileName, m.base64, "a") && n == SmallModel(n.fileName, n.base64, "b")
    ensures var c, files, models := Small(second), SmallFiles(m, n), [m, n];
      && CopiedModels(files) == models && ModelFor(models, "a") == Some(m) && ModelFor(models, "b") == Some(n)
      && c.readFootprint(files[0].base64) == Ok((FootprintText([], ["a"]), "A"))
      && c.readFootprint(files[1].base64) == Ok((FootprintText([], ["b"]), second))
      && ChoiceFor(files[0], "A", choices) == Some("g-l:" + "A")
      && ChoiceFor(files[1], second, choices) == Some("g-l:" + second)
  {
    var files, models := SmallFiles(m, n), [m, n];
    ModelsOf(files, files[0], files[1], m, n);
    SmallChoices(second, choices);
    assert models[1..] == [n];
    assert "g-l:A" == "g-l:" + "A";
  }

  /** What both footprints send, and that both can be saved. */
  lemma BothSend(c: Catalog, second: string, choices: seq<string>, m: TeamFile, n: TeamFile)
    requires c == Small(second) && choices == ["g-l:A", "g-l:" + second]
    requires m == SmallModel(m.fileName, m.base64, "a") && ModelFileName(m.fileName) == m.fileName
    requires n == SmallModel(n.fileName, n.base64, "b") && ModelFileName(n.fileName) == n.fileName
    ensures var files := SmallFiles(m, n);
      var models := CopiedModels(files);
      var own, other := ModelUpload(c, "g-l:" + "A", m), ModelUpload(c, "g-l:" + second, n);
      && c.Lawful() && TwoSend(c, files, models, choices)
      && OwnModel(c, files[0], models, choices, "a") == Some(own)
      && OwnModel(c, files[1], models, choices, "b") == Some(other)
      && var one := FileUploads(c, files[0], models, choices).value;
      var two := FileUploads(c, files[1], models, choices).value;
      && IsPair(one, "g-l:" + "A", "g-l/" + m.fileName) && one[0] == own
      && IsPair(two, "g-l:" + second, "g-l/" + n.fileName) && two[0] == other
      && OwnText(c, files[0], models, choices) == Some(one[1])
      && OwnText(c, files[1], models, choices) == Some(two[1])
  {
    hide CopiedModels, ModelFor, ModelUpload, ChoiceFor, OwnModel, IsPair, OwnText, UploadsFor, Small, Catalog.Lawful;
    var files, models := SmallFiles(m, n), [m, n];
    SmallIsLawful(second);
    SmallReads(second, choices, m, n);
    SmallSends(c, second, files[0], models, choices, "A", "a", m);
    SmallSends(c, second, files[1], models, choices, second, "b", n);
    assert FileUploads(c, m, models, choices).Ok? && FileUploads(c, n, models, choices).Ok?;
  }

  lemma SmallChoices(second: string, choices: seq<string>)
    requires choices == ["g-l:A", "g-l:" + second]
    ensures ChoiceFor(SmallFootprint("1", 0), "A", choices) == Some("g-l:A")
    ensures ChoiceFor(SmallFootprint("2", 1), second, choices) == Some("g-l:" + second)
  {
    SplitsAtColon("g-l", "A");
    SplitsAtColon("g-l", second);
    assert "g-l:A" == "g-l" + ":" + "A" && "g-l:" + second == "g-l" + ":" + second;
  }

  // ----- two files that send to one place -----

  lemma FirstIsKept(c: Catalog, files: seq<TeamFile>, models: seq<TeamFile>, choices: seq<string>, u: CadUpload)
    requires files != [] && Sends(c, files[0], models, choices, u)
    ensures IsFirst(c, files, models, choices, u)
  {
    hide Sends, Target;
    assert !IsTaken(c, files[..0], models, choices, Target(u));
  }

  lemma SecondIsKept(c: Catalog, files: seq<TeamFile>, models: seq<TeamFile>, choices: seq<string>, u: CadUpload)
    requires |files| >= 2 && Sends(c, files[1], models, choices, u)
    requires forall v :: Sends(c, files[0], models, choices, v) ==> Target(v) != Target(u)
    ensures IsFirst(c, files, models, choices, u)
  {
    hide Sends, Target;
    assert !IsTaken(c, files[..1], models, choices, Target(u)) by {
      if IsTaken(c, files[..1], models, choices, Target(u)) {
        var j: nat, v :| j < 1 && SendsTo(c, files[..1][j], models, choices, v, Target(u));
      }
    }
  }

  /** What the first file sends to its place, the second does not. */
  lemma SecondIsLost(c: Catalog, files: seq<TeamFile>, models: seq<TeamFile>, choices: seq<string>, first: CadUpload,
                     lost: CadUpload)
    requires TwoSend(c, files, models, choices)
    requires Sends(c, files[0], models, choices, first) && Target(first) == Target(lost) && first != lost
    ensures !IsFirst(c, files, models, choices, lost)
  {
    hide UploadsFor, ChoiceFor;
    assert !Sends(c, files[2], models, choices, lost) && !Sends(c, files[3], models, choices, lost);
    assert files[0] in files;
    hide FileUploads;
    FileSendsOnce(c, files[0], models, choices);
    OnceOnly(FileUploads(c, files[0], models, choices).value, first, lost);
    assert !Sends(c, files[0], models, choices, lost);
    hide Sends, Target, AllCanSend;
    forall j: nat | j < |files| && Sends(c, files[j], models, choices, lost)
      ensures IsTaken(c, files[..j], models, choices, Target(lost))
    {
      assert j == 1 && files[..1][0] == files[0];
      assert SendsTo(c, files[..1][0], models, choices, first, Target(lost));
    }
  }

  lemma OnceOnly(one: seq<CadUpload>, f: CadUpload, lost: CadUpload)
    requires AllDiffer(one) && f in one && Target(f) == Target(lost) && f != lost
    ensures lost !in one
  {
    hide Target;
    var i :| 0 <= i < |one| && one[i] == f;
    forall j | 0 <= j < |one| ensures one[j] != lost {
      assert i < j || j < i || i == j;
    }
  }

  lemma PairSends(c: Catalog, file: TeamFile, models: seq<TeamFile>, choices: seq<string>,
                  one: seq<CadUpload>)
    requires FileUploads(c, file, models, choices) == Ok(one) && |one| == 2
    ensures forall u :: Sends(c, file, models, choices, u) <==> u == one[0] || u == one[1]
  {
    assert one == [one[0], one[1]];
  }

  /** Two pairs with one place: the second's text is saved without its model. */
  lemma {:induction false} ModelsMeet(c: Catalog, files: seq<TeamFile>, choices: seq<string>, one: seq<CadUpload>,
                                      two: seq<CadUpload>, reference: string, reference': string, place: string)
    requires TwoSend(c, files, CopiedModels(files), choices) && reference != reference'
    requires FileUploads(c, files[0], CopiedModels(files), choices) == Ok(one) && IsPair(one, reference, place)
    requires FileUploads(c, files[1], CopiedModels(files), choices) == Ok(two) && IsPair(two, reference', place)
    requires one[0] != two[0]
    ensures var saved := SavedUploads(c, files, choices); one[0] in saved && two[0] !in saved && two[1] in saved
  {
    var models := CopiedModels(files);
    PairSends(c, files[0], models, choices, one);
    PairSends(c, files[1], models, choices, two);
    hide FileUploads, CopiedModels, IsFirst, SavedUploads, AllCanSend, Sends;
    FirstIsKept(c, files, models, choices, one[0]);
    SecondIsLost(c, files, models, choices, one[0], two[0]);
    SecondIsKept(c, files, models, choices, two[1]);
    UploadIsSavedExactly(c, files, choices);
  }

  /** Two pairs with one reference: the second's model is saved without its text. */
  lemma {:induction false} TextsMeet(c: Catalog, files: seq<TeamFile>, choices: seq<string>, one: seq<CadUpload>,
                                     two: seq<CadUpload>, reference: string, place: string, place': string)
    requires TwoSend(c, files, CopiedModels(files), choices) && place != place'
    requires FileUploads(c, files[0], CopiedModels(files), choices) == Ok(one) && IsPair(one, reference, place)
    requires FileUploads(c, files[1], CopiedModels(files), choices) == Ok(two) && IsPair(two, reference, place')
    requires one[1] != two[1]
    ensures var saved := SavedUploads(c, files, choices);
      && one[0] in saved && two[0] in saved && two[1] !in saved
      && forall u :: u in saved && u.role == FootprintRole ==> u == one[1]
  {
    var models, saved := CopiedModels(files), SavedUploads(c, files, choices);
    PairSends(c, files[0], models, choices, one);
    PairSends(c, files[1], models, choices, two);
    hide FileUploads, CopiedModels, SavedUploads, AllCanSend, Sends, IsFirst;
    FirstIsKept(c, files, models, choices, one[0]);
    SecondIsLost(c, files, models, choices, one[1], two[1]);
    SecondIsKept(c, files, models, choices, two[0]);
    UploadIsSavedExactly(c, files, choices);
    forall u | u in saved && u.role == FootprintRole ensures u == one[1] {
      OnlyTextIsFirst(c, files, models, choices, one, two, u);
    }
  }

  lemma OnlyTextIsFirst(c: Catalog, files: seq<TeamFile>, models: seq<TeamFile>, choices: seq<string>,
                        one: seq<CadUpload>, two: seq<CadUpload>, u: CadUpload)
    requires TwoSend(c, files, models, choices)
    requires |one| == 2 && |two| == 2 && one[0].role == Model && two[0].role == Model
    requires forall v :: Sends(c, files[0], models, choices, v) <==> v == one[0] || v == one[1]
    requires forall v :: Sends(c, files[1], models, choices, v) <==> v == two[0] || v == two[1]
    requires IsFirst(c, files, models, choices, u) && u != two[1] && u.role == FootprintRole
    ensures u == one[1]
  {
    hide Sends, AllCanSend, IsFirst;
    OthersSendNothing(c, files, models, choices);
    SomeFileSends(c, files, models, choices, u);
  }

  lemma SomeFileSends(c: Catalog, files: seq<TeamFile>, models: seq<TeamFile>, choices: seq<string>, u: CadUpload)
    requires |files| == 4 && IsFirst(c, files, models, choices, u)
    ensures Sends(c, files[0], models, choices, u) || Sends(c, files[1], models, choices, u)
      || Sends(c, files[2], models, choices, u) || Sends(c, files[3], models, choices, u)
  {
    hide Sends, IsTaken;
  }

  lemma OthersSendNothing(c: Catalog, files: seq<TeamFile>, models: seq<TeamFile>, choices: seq<string>)
    requires TwoSend(c, files, models, choices)
    ensures forall u :: !Sends(c, files[2], models, choices, u) && !Sends(c, files[3], models, choices, u)
  {
  }

  /** Two footprints with different models `x` and `y` of one file name: both
      can be saved, and the second's link leads to the first's model. */
  lemma LaterModelIsLost(x: string, y: string)
    requires x != y
    ensures var c, choices := Small("B"), ["g-l:A", "g-l:" + "B"];
      var files := SmallFiles(SmallModel("m", x, "a"), SmallModel("m", y, "b"));
      var models, saved := CopiedModels(files), SavedUploads(c, files, choices);
      var own, other := OwnModel(c, files[0], models, choices, "a"), OwnModel(c, files[1], models, choices, "b");
      var text := OwnText(c, files[1], models, choices);
      && c.Lawful() && AllCanSend(c, files, models, choices)
      && own.Some? && own.value.contents == Bytes(x) && own.value in saved
      && other.Some? && other.value.contents == Bytes(y) && other.value !in saved
      && text.Some? && text.value in saved && IsLinked(c, files[1], "b", text.value, own.value.reference)
  {
    hide FileUploads, OwnModel, OwnText, CopiedModels, PlaceOf;
    hide SavedUploads, Small, Catalog.Lawful, IsLinked, SourceOf, InstalledSource;
    var c, choices, m, n := Small("B"), ["g-l:A", "g-l:" + "B"], SmallModel("m", x, "a"), SmallModel("m", y, "b");
    var files, models := SmallFiles(m, n), CopiedModels(SmallFiles(m, n));
    assert ModelFileName("m") == "m";
    BothSend(c, "B", choices, m, n);
    assert ("g-l:" + "A")[4] != ("g-l:" + "B")[4];
    assert files[0] in files && files[1] in files;
    LinkIsWritten(c, files[1], models, choices, "b");
    ModelsMeet(c, files, choices, FileUploads(c, files[0], models, choices).value,
               FileUploads(c, files[1], models, choices).value, "g-l:" + "A", "g-l:" + "B", "g-l/" + "m");
  }

  /** Two footprints of one name, from different libraries, with models `x` and
      `y` of different file names: both can be saved and so are both models, but
      the second's text is not, and its link is in no text saved. */
  lemma LaterFootprintIsLost(x: string, y: string)
    ensures var c, choices := Small("A"), ["g-l:A", "g-l:" + "A"];
      var files := SmallFiles(SmallModel("m", x, "a"), SmallModel("n", y, "b"));
      var models, saved := CopiedModels(files), SavedUploads(c, files, choices);
      var own, other := OwnModel(c, files[0], models, choices, "a"), OwnModel(c, files[1], models, choices, "b");
      var text, lost := OwnText(c, files[0], models, choices), OwnText(c, files[1], models, choices);
      && c.Lawful() && AllCanSend(c, files, models, choices)
      && own.Some? && own.value in saved && other.Some? && other.value in saved
      && own.value.reference == "g-l/" + "m" && other.value.reference == "g-l/" + "n"
      && text.Some? && (forall u :: u in saved && u.role == FootprintRole ==> u == text.value)
      && lost.Some? && lost.value !in saved && IsLinked(c, files[1], "b", lost.value, "g-l/" + "n")
      && text.value.contents == Linked(FootprintText([], ["own/" + ("g-l/" + "m")]))
  {
    hide FileUploads, OwnModel, OwnText, CopiedModels, PlaceOf;
    hide SavedUploads, Small, Catalog.Lawful, IsLinked, SourceOf, InstalledSource;
    var c, choices, m, n := Small("A"), ["g-l:A", "g-l:" + "A"], SmallModel("m", x, "a"), SmallModel("n", y, "b");
    var files, models := SmallFiles(m, n), CopiedModels(SmallFiles(m, n));
    assert ModelFileName("m") == "m" && ModelFileName("n") == "n";
    BothSend(c, "A", choices, m, n);
    assert ("g-l/" + "m")[4] != ("g-l/" + "n")[4];
    assert ("own/" + ("g-l/" + "m"))[8] != ("own/" + ("g-l/" + "n"))[8];
    assert files[0] in files && files[1] in files;
    LinkIsWritten(c, files[1], models, choices, "b");
    TextsMeet(c, files, choices, FileUploads(c, files[0], models, choices).value,
              FileUploads(c, files[1], models, choices).value, "g-l:" + "A", "g-l/" + "m", "g-l/" + "n");
  }

  /** A footprint whose own source leaves no room: its link is left out, and the
      history does not say so. When the source is cut, the history has it as it
      is, as of an unchanged footprint. */
  lemma CutSourceHidesChange(source: string)
    requires |source| + |LEFT_OUT| > MAX_FILE_NAME
    ensures var c, file := Small("B"), SmallFootprint("1", 0).(noModels := true, sourceLabel := Some(source));
      var original, r := FootprintText([], ["a"]), UploadsFor(c, file, [], "g-l:A");
      && c.readFootprint(file.base64) == Ok((original, "A"))
      && r.Ok? && |r.value| == 1 && r.value[0].contents == Linked(FootprintText([], []))
      && !Says(r.value[0].source, LEFT_OUT)
      && (LooksCut(source) ==> r.value[0].source == source)
  {
    hide Shortened, Says, LooksCut;
    var c, file := Small("B"), SmallFootprint("1", 0).(noModels := true, sourceLabel := Some(source));
    var original := FootprintText([], ["a"]);
    assert ["a"][1..] == [];
    assert CopyOf(c, file, [], "g-l:A", original).value.text == FootprintText([], []);
    CutSaysExactly(source, LEFT_OUT);
    CutsToItselfExactly(source, LEFT_OUT);
  }
}
