/** From the rows of the edit form to the saved part: which model a copied
    footprint's link leads to. */
module RowsToSave {
  import opened Text
  import opened Lists
  import opened Files
  import opened CadChoices
  import opened CopiedFootprints

  lemma {:induction false} ModelForJoined(a: seq<TeamFile>, b: seq<TeamFile>, link: string)
    ensures ModelFor(a + b, link) == if ModelFor(a, link).Some? then ModelFor(a, link) else ModelFor(b, link)
  {
    if a == [] {
      assert a + b == b;
    } else {
      ModelForJoined(a[1..], b, link);
      assert (a + b)[1..] == a[1..] + b;
    }
  }

  lemma {:induction false} CopiedModelsJoined(a: seq<TeamFile>, b: seq<TeamFile>)
    ensures CopiedModels(a + b) == CopiedModels(a) + CopiedModels(b)
  {
    if a == [] {
      assert a + b == b;
    } else {
      var head := if a[0].kind == ModelFile && a[0].installed.Some? then [a[0]] else [];
      assert (a + b)[0] == a[0] && (a + b)[1..] == a[1..] + b;
      assert CopiedModels(a) == head + CopiedModels(a[1..]);
      assert CopiedModels(a + b) == head + CopiedModels(a[1..] + b);
      hide CopiedModels;
      CopiedModelsJoined(a[1..], b);
    }
  }

  /** The first model among `files` that was read for `link`. */
  function FirstModel(files: seq<TeamFile>, link: string): Option<TeamFile> {
    ModelFor(CopiedModels(files), link)
  }

  lemma FirstModelJoined(a: seq<TeamFile>, b: seq<TeamFile>, link: string)
    ensures FirstModel(a + b, link) == if FirstModel(a, link).Some? then FirstModel(a, link) else FirstModel(b, link)
  {
    CopiedModelsJoined(a, b);
    ModelForJoined(CopiedModels(a), CopiedModels(b), link);
  }

  /** What the rows send around one row. */
  lemma {:induction false} AllSentSplits(rows: seq<Row>, i: nat) returns (later: seq<TeamFile>)
    requires i < |rows|
    ensures AllSent(rows, Footprint)
      == AllSent(rows[..i], Footprint) + Sent(rows[i], Footprint, |Named(rows[..i])|) + later
    decreases |rows|
  {
    hide Sent, Named;
    var n := |rows| - 1;
    if i < n {
      var rest := AllSentSplits(rows[..n], i);
      assert rows[..n][..i] == rows[..i] && rows[..n][i] == rows[i];
      later := rest + Sent(rows[n], Footprint, |Named(rows[..n])|);
    } else {
      later := [];
    }
  }

  /** Row `i` copies a footprint with its models, `own` for the link `link`. */
  predicate CopiesModel(rows: seq<Row>, i: nat, link: string, own: TeamFile) {
    && i < |rows| && IsCopy(rows[i]) && !rows[i].change.choice.noModels
    && IsCopied(rows[i].change.choice.file)
    && FirstModel(rows[i].change.choice.copy.value.models, link) == Some(own)
  }

  lemma RowSendsOwn(row: Row, at: nat, link: string, own: TeamFile)
    requires CopiesModel([row], 0, link, own)
    ensures var sent := Sent(row, Footprint, at);
      && FirstModel(sent, link) == Some(own)
      && sent != [] && IsCopied(sent[0]) && !sent[0].noModels
  {
    var choice, sent := row.change.choice, Sent(row, Footprint, at);
    var file, models := sent[0], choice.copy.value.models;
    assert sent == [file] + (models + choice.modelFiles);
    assert [file][1..] == [];
    assert CopiedModels([file]) == [];
    hide Sent, CopiedModels, ModelFor;
    FirstModelJoined([file], models + choice.modelFiles, link);
    FirstModelJoined(models, choice.modelFiles, link);
    NoModel(link);
  }

  lemma {:induction false} NoModel(link: string)
    ensures ModelFor([], link) == None
  {
  }

  /** The model sent for a link is the one of the first file that brings one: the
      row's own, unless a file before the row brings one for the same link. */
  lemma {:induction false} ModelSentForLink(before: seq<TeamFile>, rows: seq<Row>, i: nat, link: string, own: TeamFile)
    requires CopiesModel(rows, i, link, own)
    ensures var earlier := FirstModel(before + AllSent(rows[..i], Footprint), link);
      FirstModel(before + AllSent(rows, Footprint), link) == if earlier.Some? then earlier else Some(own)
  {
    hide FirstModel, AllSent, Sent, Named;
    var later := AllSentSplits(rows, i);
    var sent, first := Sent(rows[i], Footprint, |Named(rows[..i])|), before + AllSent(rows[..i], Footprint);
    assert CopiesModel([rows[i]], 0, link, own);
    RowSendsOwn(rows[i], |Named(rows[..i])|, link, own);
    assert before + AllSent(rows, Footprint) == first + (sent + later);
    FirstModelJoined(first, sent + later, link);
    FirstModelJoined(sent, later, link);
  }

  /** No file before row `i` brings another model for the same link. */
  predicate NoOtherBefore(c: Catalog, before: seq<TeamFile>, rows: seq<Row>, i: nat, link: string, own: TeamFile)
    requires i < |rows|
  {
    var earlier, reference := FirstModel(before + AllSent(rows[..i], Footprint), link), Trim(rows[i].reference);
    earlier.None? || ModelUpload(c, reference, earlier.value) == ModelUpload(c, reference, own)
  }

  /** Of a form whose row `i` copies a footprint with the model `own` for an
      outside link: the link leads to that model in what is saved, exactly when no
      file before the row brings another model for the link, and the first file
      that sends anything to the model's place, and to the footprint's
      reference, sends the same. `before` is what the symbol's rows send. */
  lemma {:induction false} RowsLinkLeadsToItsModelExactly(c: Catalog, before: seq<TeamFile>, rows: seq<Row>, i: nat,
                                                          link: string, own: TeamFile)
    requires CopiesModel(rows, i, link, own) && PointsAtOwn(rows, i)
    requires var files, choices := before + AllSent(rows, Footprint), Choices(FootprintValue(rows));
      && c.Lawful() && AllCanSend(c, files, CopiedModels(files), choices)
      && c.readFootprint(CopySent(rows, i).base64).Ok?
      && link in OutsideLinks(c, Trim(rows[i].reference), c.readFootprint(CopySent(rows, i).base64).value.0.links)
    ensures var files, choices := before + AllSent(rows, Footprint), Choices(FootprintValue(rows));
      var models, file, saved := CopiedModels(files), CopySent(rows, i), SavedUploads(c, files, choices);
      var model, text := ModelUpload(c, Trim(rows[i].reference), own), OwnText(c, file, models, choices);
      && text.Some? && text.value.reference == Trim(rows[i].reference)
      && (OwnModel(c, file, models, choices, link) == Some(model) && LeadsToOwn(c, file, models, choices, link, saved)
          <==> NoOtherBefore(c, before, rows, i, link, own) && IsFirst(c, files, models, choices, model)
               && IsFirst(c, files, models, choices, text.value))
  {
    hide CopySent, Sent, AllSent, Named, PointsAtOwn, OutsideLinks, ModelUpload, IsNamed, Choices, FootprintValue, Trim;
    hide IsFirst, LeadsToOwn, SavedUploads, OwnText, UploadsFor, RowsOf, GoesBackTo, AllCanSend, FileUploads, ChoiceFor;
    hide Catalog.Lawful, NoOtherBefore, FirstModel, OwnModel, CopiedModels;
    var files, file := before + AllSent(rows, Footprint), CopySent(rows, i);
    CopyOfRow(rows, i, link, own);
    CopyIsResolved(c, files, rows, i);
    ModelSentForLink(before, rows, i, link, own);
    ModelOfLink(c, files, before, rows, i, link, own, Choices(FootprintValue(rows)));
    LinkLeadsToOwnExactly(c, files, Choices(FootprintValue(rows)), file, link);
  }

  lemma {:induction false} CopyOfRow(rows: seq<Row>, i: nat, link: string, own: TeamFile)
    requires CopiesModel(rows, i, link, own)
    ensures IsCopied(CopySent(rows, i)) && !CopySent(rows, i).noModels
    ensures CopySent(rows, i) in AllSent(rows, Footprint)
  {
    hide Named;
    assert CopiesModel([rows[i]], 0, link, own);
    RowSendsOwn(rows[i], |Named(rows[..i])|, link, own);
    CopyIsSent(rows, i);
  }

  /** The copy of row `i` is saved as the row's own choice. */
  lemma {:induction false} CopyIsResolved(c: Catalog, files: seq<TeamFile>, rows: seq<Row>, i: nat)
    requires i < |rows| && IsCopy(rows[i]) && PointsAtOwn(rows, i)
    requires CopySent(rows, i) in files && IsCopied(CopySent(rows, i)) && c.readFootprint(CopySent(rows, i).base64).Ok?
    requires AllCanSend(c, files, CopiedModels(files), Choices(FootprintValue(rows)))
    ensures var file, choices := CopySent(rows, i), Choices(FootprintValue(rows));
      var text := OwnText(c, file, CopiedModels(files), choices);
      && ChoiceFor(file, c.readFootprint(file.base64).value.1, choices) == Some(Trim(rows[i].reference))
      && text.Some? && text.value.reference == Trim(rows[i].reference)
  {
    hide CopySent, Sent, AllSent, Named, PointsAtOwn, IsNamed, Choices, FootprintValue, Trim, CopiedModels;
    hide UploadsFor, RowsOf, GoesBackTo, ChoiceFor, OwnText;
    var file, choices := CopySent(rows, i), Choices(FootprintValue(rows));
    CopyArrivesExactly(rows, i, c.readFootprint(file.base64).value.1, [], 0);
    assert FileUploads(c, file, CopiedModels(files), choices).Ok?;
    TextIsForItsChoice(c, file, CopiedModels(files), choices);
  }

  lemma {:induction false} ModelOfLink(c: Catalog, files: seq<TeamFile>, before: seq<TeamFile>, rows: seq<Row>, i: nat,
                                       link: string, own: TeamFile, choices: seq<string>)
    requires i < |rows| && IsCopy(rows[i]) && IsCopied(CopySent(rows, i)) && !CopySent(rows, i).noModels
    requires var read, reference := c.readFootprint(CopySent(rows, i).base64), Trim(rows[i].reference);
      && read.Ok? && ChoiceFor(CopySent(rows, i), read.value.1, choices) == Some(reference)
      && link in OutsideLinks(c, reference, read.value.0.links)
    requires var earlier := FirstModel(before + AllSent(rows[..i], Footprint), link);
      FirstModel(files, link) == if earlier.Some? then earlier else Some(own)
    ensures var model := OwnModel(c, CopySent(rows, i), CopiedModels(files), choices, link);
      && model.Some?
      && (model == Some(ModelUpload(c, Trim(rows[i].reference), own)) <==> NoOtherBefore(c, before, rows, i, link, own))
  {
    hide CopySent, AllSent, OutsideLinks, ModelUpload, ChoiceFor, Trim, CopiedModels, IsCopied;
  }
}
