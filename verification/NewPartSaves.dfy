/** What saving a new part comes to, in terms of what was chosen in the form: the
    files sent for each choice, and the choices its field then says. */
module NewPartSaves {
  import opened Text
  import opened Lists
  import opened Files
  import opened CadChoices
  import opened RowFiles

  // ----- the files -----

  /** `files` are a copied file, marked, and its models unless they are left out. */
  predicate AreCopied(files: seq<TeamFile>, file: TeamFile, models: seq<TeamFile>, noModels: bool) {
    && files != [] && files[0].noModels == noModels && files[0].choice.Some?
    && files[0].(noModels := file.noModels, choice := file.choice) == file
    && files[1..] == if noModels then [] else models
  }

  /** The first choice is a footprint that needs no file. */
  predicate NeedsNoFile(part: NewPart) {
    part.known.Some? || (part.picked.Some? && part.picked.value.useAs.ByReference?) || part.file.None?
  }

  /** What the first choice sends: a copy with its models, or a downloaded file
      with the one model chosen for it. */
  predicate IsFromFirst(files: seq<TeamFile>, part: NewPart) {
    if NeedsNoFile(part) then files == []
    else
      var file := part.file.value;
      if part.picked.Some? then AreCopied(files, file, part.models, part.noModels) && files[0].choice == Some(0)
      else match part.model
           case Some(at) => files == [file] + if at < |part.models| then [part.models[at]] else []
           case None => files == [file]
  }

  predicate IsFromExtra(files: seq<TeamFile>, extra: Extra) {
    match extra.pick.file
    case Some(file) =>
      if extra.pick.useAs.Copy? then AreCopied(files, file, extra.pick.models, extra.noModels) else files == []
    case None => files == []
  }

  /** The files are what the first choice sends and then one stretch for each
      further one. Saving is not stopped exactly when a file of ours, and each
      copy, has its library. */
  lemma {:induction false} StretchForEachChoice(part: NewPart)
    returns (first: seq<TeamFile>, stretches: seq<seq<TeamFile>>)
    ensures part.Files() == first + Joined(stretches) && IsFromFirst(first, part)
    ensures |stretches| == |part.extras|
    ensures forall i :: 0 <= i < |part.extras| ==> IsFromExtra(stretches[i], part.extras[i])
    ensures part.LacksLibrary() <==>
      (first != [] && part.library == [])
      || exists i :: 0 <= i < |part.extras| && part.extras[i].pick.useAs.Copy? && part.extras[i].library == []
  {
    first := FirstSent(part);
    stretches := ExtraStretches(part.FirstReference(), part.extras);
    FirstSentIs(part);
    hide ExtrasSent, IsFromExtra, IsFromFirst;
    assert part.FirstFile().Some? <==> first != [];
  }

  lemma FirstSentIs(part: NewPart)
    ensures IsFromFirst(FirstSent(part), part) && (NeedsNoFile(part) <==> FirstSent(part) == [])
  {
  }

  lemma {:induction false} ExtraStretches(first: string, extras: seq<Extra>) returns (stretches: seq<seq<TeamFile>>)
    ensures |stretches| == |extras| && Joined(stretches) == ExtrasSent(first, extras)
    ensures forall i :: 0 <= i < |extras| ==> IsFromExtra(stretches[i], extras[i])
  {
    hide ExtraSent, NotEmpty, IsFromExtra;
    if extras == [] {
      stretches := [];
    } else {
      var n := |extras| - 1;
      var earlier := ExtraStretches(first, extras[..n]);
      var last := ExtraSent(extras[n], |NotEmpty(ReferencesOf(first, extras[..n]))|);
      ExtraSentIs(extras[n], |NotEmpty(ReferencesOf(first, extras[..n]))|);
      stretches := earlier + [last];
      assert stretches[..n] == earlier;
    }
  }

  lemma ExtraSentIs(extra: Extra, choice: nat)
    ensures IsFromExtra(ExtraSent(extra, choice), extra)
  {
  }

  // ----- the choices -----

  /** No choice that is written is blank or holds a `;`. */
  ghost predicate IsPlain(part: NewPart) {
    forall r :: r in part.References() && r != [] ==> Trim(r) != [] && ';' !in r
  }

  /** What the first choice says: a footprint already known, the one picked by
      reference, or the file's name in the library chosen for it. */
  predicate IsFirstChoice(part: NewPart, own: string) {
    if part.known.Some? then part.known == Some(own)
    else if part.picked.Some? && part.picked.value.useAs.ByReference? then part.picked.value.reference == own
    else part.file.Some? && part.library != [] && part.fileName != [] && own == part.library + ":" + part.fileName
  }

  predicate IsExtraChoice(extra: Extra, own: string) {
    match extra.pick.useAs
    case ByReference => extra.pick.reference == own
    case Copy => extra.library != [] && extra.pick.name != [] && own == extra.library + ":" + extra.pick.name
  }

  /** The field says the first choice first, and each further one after those
      before it. */
  lemma {:induction false} ChoicesAreSaid(part: NewPart, first: string, k: nat, own: string)
    requires IsPlain(part)
    requires IsFirstChoice(part, first) && first != []
    requires k < |part.extras| && IsExtraChoice(part.extras[k], own) && own != []
    ensures var choices := Choices(part.FootprintField());
      && choices != [] && choices[0] == Trim(first)
      && exists at :: 1 <= at < |choices| && choices[at] == Trim(own)
  {
    var items := part.References();
    assert items[0] == first && items[k + 1] == own;
    PlainReadsBack(part, 0);
    PlainReadsBack(part, k + 1);
    FirstIsWritten(items, k + 1);
    hide NotEmpty, Choices, Join, Trim, NewPart.FirstReference, Extra.Reference;
    assert items[..0] == [];
  }

  lemma PlainReadsBack(part: NewPart, k: nat)
    requires IsPlain(part) && k < |part.References()| && part.References()[k] != []
    ensures ItemPointsAtOwn(part.References(), k)
  {
    NewPartReadsBackExactly(part.References());
    NotEmptyIs(part.References());
    hide NotEmpty, Choices, Join, Trim, ItemPointsAtOwn, NewPart.FirstReference, Extra.Reference;
  }

  lemma {:induction false} FirstIsWritten(items: seq<string>, k: nat)
    requires 0 < k <= |items| && items[0] != []
    ensures |NotEmpty(items[..0])| == 0 < |NotEmpty(items[..k])|
  {
    assert items[..k] != [] && items[0] in items[..k];
    NotEmptyIs(items[..k]);
    assert items[0] in NotEmpty(items[..k]);
  }

  /** A copy chosen from a library is sent and saved as `LIBRARY:NAME`, trimmed,
      exactly when no white space ends its name, and refused otherwise. */
  lemma ExtraCopyIsSavedAs(part: NewPart, k: nat, library: string, name: string)
    requires IsPlain(part) && k < |part.extras|
    requires var extra := part.extras[k];
      extra.pick.useAs.Copy? && extra.pick.file.Some? && extra.library == library && extra.pick.name == name
    requires library != [] && ':' !in library && name != []
    ensures exists files ::
      && IsFromExtra(files, part.extras[k]) && files != [] && files[0] in part.Files()
      && ChoiceFor(files[0], name, Choices(part.FootprintField()))
         == if IsSpace(name[|name| - 1]) then None else Some(Trim(library + ":" + name))
  {
    var extra, items := part.extras[k], part.References();
    var at := |NotEmpty(items[..k + 1])|;
    var files := ExtraSent(extra, at);
    assert extra.Reference() == library + ":" + name == items[k + 1];
    ExtraSentIs(extra, at);
    ExtraCopyArrivesExactly(part, k, name);
    PlainReadsBack(part, k + 1);
    TrimmedChoiceNames(library, name);
    hide NotEmpty, Choices, ExtraSent, NewPart.FirstReference, Extra.Reference, NewPart.Files, IsNamed, ItemPointsAtOwn;
    assert IsFromExtra(files, extra) && files != [];
  }

  /** The same for a copy that is the first choice. */
  lemma FirstCopyIsSavedAs(part: NewPart, library: string, name: string)
    requires IsPlain(part) && part.known.None? && part.file.Some?
    requires part.picked.Some? && part.picked.value.useAs.Copy?
    requires part.library == library && part.fileName == name && library != [] && ':' !in library && name != []
    ensures exists files ::
      && IsFromFirst(files, part) && files != [] && files[0] in part.Files()
      && ChoiceFor(files[0], name, Choices(part.FootprintField()))
         == if IsSpace(name[|name| - 1]) then None else Some(Trim(library + ":" + name))
  {
    var items, files := part.References(), FirstSent(part);
    FirstSentIs(part);
    hide IsFromFirst, FirstSent;
    assert items[0] == library + ":" + name;
    FirstCopyArrivesExactly(part, name);
    hide Trim;
    PlainReadsBack(part, 0);
    TrimmedChoiceNames(library, name);
    hide NotEmpty, Choices, NewPart.FirstReference, Extra.Reference, NewPart.Files, IsNamed, ItemPointsAtOwn, IsPlain;
  }
}
