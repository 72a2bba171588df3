/** What the rows of the form say about the files they send, besides the choice:
    which earlier choice each replaces, and which models go with it. */
module RowFiles {
  import opened Text
  import opened Lists
  import opened Files
  import opened CadChoices

  /** `files` are the one chosen in the row, marked with what the row knows, then
      the models copied with it, if wanted, then those chosen for it. */
  predicate AreFilesOf(files: seq<TeamFile>, choice: FileChoice, before: string) {
    && files != []
    && var file := files[0];
    && file.replaced == Some(before)
    && (file.noModels <==> choice.copy.Some? && choice.noModels)
    && file.(replaced := choice.file.replaced, noModels := choice.file.noModels, choice := choice.file.choice)
       == choice.file
    && match choice.copy
       case None => files[1..] == choice.modelFiles
       case Some(copy) => files[1..] == (if choice.noModels then [] else copy.models) + choice.modelFiles
  }

  /** The files sent are one stretch for each row, in the order of the rows: none
      for a row without a file. A number is on a copied footprint alone. */
  lemma {:induction false} StretchForEachRow(rows: seq<Row>, kind: PreviewKind) returns (stretches: seq<seq<TeamFile>>)
    ensures |stretches| == |rows| && Joined(stretches) == AllSent(rows, kind)
    ensures forall i :: 0 <= i < |rows| ==> IsFromRow(stretches[i], rows[i], kind)
  {
    hide Trim, Sent, IsFromRow;
    if rows == [] {
      stretches := [];
    } else {
      var n := |rows| - 1;
      var earlier := StretchForEachRow(rows[..n], kind);
      var last := Sent(rows[n], kind, |Named(rows[..n])|);
      SentIsFromRow(rows[n], kind, |Named(rows[..n])|);
      stretches := earlier + [last];
      assert stretches[..n] == earlier;
    }
  }

  /** What one row adds to the files. */
  predicate IsFromRow(files: seq<TeamFile>, row: Row, kind: PreviewKind) {
    match row.change
    case FileChosen(choice) =>
      AreFilesOf(files, choice, row.before)
      && (files[0].choice.Some? <==> kind == Footprint && choice.copy.Some?)
    case _ => files == []
  }

  lemma SentIsFromRow(row: Row, kind: PreviewKind, position: nat)
    ensures IsFromRow(Sent(row, kind, position), row, kind)
  {
  }

  function Joined(stretches: seq<seq<TeamFile>>): seq<TeamFile> {
    if stretches == [] then [] else Joined(stretches[..|stretches| - 1]) + stretches[|stretches| - 1]
  }

  // ----- what a row replaces -----

  /** In a form opened on a field that is as it was, each row replaces the choice
      it shows exactly when no blank choice is before one that is not blank: the
      blank ones are left out of the rows, but not of what they replace. */
  lemma {:induction false} RowsReplaceTheirOwnExactly(value: string, firstKey: nat)
    ensures (forall r :: r in RowsOf(value, value, firstKey) ==> r.before == r.reference)
      <==> !BlankComesFirst(Split(value))
  {
    hide Trim, Split, Kept, RowsOf, Choices, BlankComesFirst;
    var rows, pieces := RowsOf(value, value, firstKey), Split(value);
    KeptInPlaceExactly(pieces);
    OpenedRowsAre(value, firstKey);
    assert forall i :: 0 <= i < |rows| ==> rows[i] in rows;
  }

  lemma {:induction false} OpenedRowsAre(value: string, firstKey: nat)
    ensures var rows, pieces := RowsOf(value, value, firstKey), Split(value);
      && |Kept(pieces)| <= |pieces|
      && if Kept(pieces) == [] then forall r :: r in rows ==> r.before == r.reference
         else |rows| == |Kept(pieces)| && forall i :: 0 <= i < |rows| ==>
                rows[i].before == Trim(pieces[i]) && rows[i].reference == Kept(pieces)[i]
  {
    KeptIsNoLonger(Split(value));
    hide Trim, Split, Kept;
  }

  ghost predicate BlankComesFirst(pieces: seq<string>) {
    exists i, j :: 0 <= i < j < |pieces| && Trim(pieces[i]) == [] && Trim(pieces[j]) != []
  }

  lemma {:induction false} KeptIsNoLonger(pieces: seq<string>)
    ensures |Kept(pieces)| <= |pieces|
  {
    if pieces != [] {
      KeptIsNoLonger(pieces[1..]);
    }
  }

  /** The pieces that are kept are the first ones. */
  ghost predicate KeptInPlace(pieces: seq<string>) {
    |Kept(pieces)| <= |pieces| && forall i :: 0 <= i < |Kept(pieces)| ==> Kept(pieces)[i] == Trim(pieces[i])
  }

  lemma {:induction false} KeptInPlaceExactly(pieces: seq<string>)
    ensures KeptInPlace(pieces) <==> !BlankComesFirst(pieces)
  {
    if pieces != [] {
      var rest := pieces[1..];
      KeptInPlaceExactly(rest);
      KeptIsNoLonger(rest);
      if Trim(pieces[0]) == [] {
        AfterBlank(pieces);
      } else {
        AfterChoice(pieces);
      }
    }
  }

  lemma AfterBlank(pieces: seq<string>)
    requires pieces != [] && Trim(pieces[0]) == []
    ensures KeptInPlace(pieces) <==> !BlankComesFirst(pieces)
  {
    var rest := pieces[1..];
    KeptHasEach(rest);
    KeptIsNoLonger(rest);
    hide Trim;
    if Kept(rest) == [] {
      assert forall j :: 0 < j < |pieces| ==> pieces[j] == rest[j - 1];
    } else {
      assert Kept(pieces)[0] in Kept(pieces);
      var j :| 0 <= j < |rest| && Trim(rest[j]) != [];
      assert Trim(pieces[j + 1]) != [];
    }
  }

  lemma AfterChoice(pieces: seq<string>)
    requires pieces != [] && Trim(pieces[0]) != []
    ensures KeptInPlace(pieces) <==> KeptInPlace(pieces[1..])
    ensures BlankComesFirst(pieces) <==> BlankComesFirst(pieces[1..])
  {
    hide Trim, KeptInPlace, BlankComesFirst;
    ChoiceIsKept(pieces);
    ChoiceIsNotBlank(pieces);
  }

  lemma ChoiceIsNotBlank(pieces: seq<string>)
    requires pieces != [] && Trim(pieces[0]) != []
    ensures BlankComesFirst(pieces) <==> BlankComesFirst(pieces[1..])
  {
    var rest := pieces[1..];
    hide Trim;
    if i, j :| 0 <= i < j < |rest| && Trim(rest[i]) == [] && Trim(rest[j]) != [] {
      assert Trim(pieces[i + 1]) == [] && Trim(pieces[j + 1]) != [];
    }
    if i, j :| 0 <= i < j < |pieces| && Trim(pieces[i]) == [] && Trim(pieces[j]) != [] {
      assert Trim(rest[i - 1]) == [] && Trim(rest[j - 1]) != [];
    }
  }

  lemma ChoiceIsKept(pieces: seq<string>)
    requires pieces != [] && Trim(pieces[0]) != []
    ensures KeptInPlace(pieces) <==> KeptInPlace(pieces[1..])
  {
    var rest := pieces[1..];
    hide Trim;
    assert Kept(pieces) == [Trim(pieces[0])] + Kept(rest);
    hide Kept;
    if KeptInPlace(rest) {
      forall i | 0 <= i < |Kept(pieces)| ensures Kept(pieces)[i] == Trim(pieces[i]) {
        if i > 0 {
          assert Kept(rest)[i - 1] == Trim(rest[i - 1]);
        }
      }
    }
    if KeptInPlace(pieces) {
      forall i | 0 <= i < |Kept(rest)| ensures Kept(rest)[i] == Trim(rest[i]) {
        assert Kept(pieces)[i + 1] == Trim(pieces[i + 1]);
      }
    }
  }

  lemma {:induction false} KeptHasEach(pieces: seq<string>)
    ensures Kept(pieces) == [] <==> forall i :: 0 <= i < |pieces| ==> Trim(pieces[i]) == []
  {
    if pieces != [] {
      KeptHasEach(pieces[1..]);
      assert forall i :: 0 <= i < |pieces| ==> pieces[i] == if i == 0 then pieces[0] else pieces[1..][i - 1];
    }
  }

  // ----- the row a file goes back to -----

  /** Among the rows as they are, a copy goes back to the row that sent it, unless
      that is blank; any other file goes to the first row. */
  lemma {:induction false} FileGoesToItsRow(rows: seq<Row>, i: nat, file: TeamFile, kind: PreviewKind)
    requires i < |rows|
    ensures !rows[i].IsBlank() && file.choice == Some(|Named(rows[..i])|) ==>
      RowFor(file, Footprint, rows) == Some(rows[i].key)
    ensures kind == Symbol || file.choice.None? || file.choice.value >= |Named(rows)| ==>
      RowFor(file, kind, rows) == Some(rows[0].key)
  {
    NotBlankIsNamed(rows);
    if !rows[i].IsBlank() {
      NotBlankAt(rows, i);
    }
    hide NotBlank, Named, Trim;
  }

  lemma {:induction false} NotBlankJoined(rows: seq<Row>, last: Row)
    ensures NotBlank(rows + [last]) == NotBlank(rows) + if last.IsBlank() then [] else [last]
  {
    hide Trim;
    if rows == [] {
      assert [last][1..] == [];
    } else {
      NotBlankJoined(rows[1..], last);
      assert (rows + [last])[1..] == rows[1..] + [last];
    }
  }

  lemma {:induction false} NotBlankIsNamed(rows: seq<Row>)
    ensures |NotBlank(rows)| == |Named(rows)|
  {
    hide Trim;
    if rows != [] {
      var n := |rows| - 1;
      NotBlankIsNamed(rows[..n]);
      assert rows == rows[..n] + [rows[n]];
      NotBlankJoined(rows[..n], rows[n]);
    }
  }

  lemma {:induction false} NotBlankAt(rows: seq<Row>, i: nat)
    requires i < |rows| && !rows[i].IsBlank()
    ensures |Named(rows[..i])| < |NotBlank(rows)| && NotBlank(rows)[|Named(rows[..i])|] == rows[i]
    decreases |rows|
  {
    hide Trim, NotBlank, Named;
    var n := |rows| - 1;
    assert rows == rows[..n] + [rows[n]];
    NotBlankJoined(rows[..n], rows[n]);
    if i < n {
      NotBlankAt(rows[..n], i);
      assert rows[..n][..i] == rows[..i];
    } else {
      NotBlankIsNamed(rows[..n]);
    }
  }

  // ----- what a row says -----

  /** A copied footprint whose library is chosen is saved as `LIBRARY:NAME`, trimmed,
      exactly when no white space ends its name, and refused otherwise. */
  lemma {:induction false} ChosenCopyIsSavedAs(rows: seq<Row>, i: nat, library: string, name: string)
    requires i < |rows| && IsCopy(rows[i])
    requires var choice := rows[i].change.choice;
      && rows[i].reference == choice.Reference() && choice.library == library && choice.file.symbol.None?
      && choice.names != [] && choice.names[0] == name
    requires library != [] && ':' !in library
    requires forall r :: r in rows && !r.IsBlank() ==> ';' !in r.reference
    ensures var saved := ChoiceFor(CopySent(rows, i), name, Choices(FootprintValue(rows)));
      saved == if name != [] && IsSpace(name[|name| - 1]) then None else Some(Trim(library + ":" + name))
  {
    assert rows[i].reference == library + ":" + name;
    NotAllBlank(library, name);
    TrimmedChoiceNames(library, name);
    hide CopySent, FootprintValue, Choices, FileChoice.Reference, FileChoice.Name, Trim, IsNamed, SplitOnce;
    CopiesArrive(rows, i, name, [], 0);
  }

  lemma NotAllBlank(library: string, name: string)
    ensures Trim(library + ":" + name) != []
  {
    TrimStartOfChoice(library, name);
    TrimEndOfChoice(TrimStart(library), name);
  }

  /** A row says `LIBRARY:NAME`, or the bare name when it has no library. The name
      is the symbol's, or else the file's first. */
  lemma RowSaysName(choice: FileChoice, name: string)
    requires choice.file.symbol == Some(name)
      || (choice.file.symbol.None? && choice.names != [] && choice.names[0] == name)
    ensures choice.library == [] ==> choice.Reference() == name
    ensures choice.library != [] && ':' !in choice.library ==>
      SplitOnce(choice.Reference()) == Some((choice.library, name))
  {
    if ':' !in choice.library {
      SplitsAtColon(choice.library, name);
    }
  }

  /** The file has no library of ours chosen for it. */
  predicate LacksLibrary(row: Row) {
    row.change.FileChosen? && row.change.choice.library == []
  }

  /** What is said of a file without a library. */
  function Asked(row: Row, kind: PreviewKind): string
    requires LacksLibrary(row)
  {
    match kind
    case Symbol => "Choose a library for the symbol " + row.change.choice.Name() + " before you save."
    case Footprint => "Choose a library for the footprint " + row.change.choice.Name() + " before you save."
  }

  lemma NoLibraryAsks(row: Row, kind: PreviewKind)
    ensures NoLibrary(row, kind) == if LacksLibrary(row) then Some(Asked(row, kind)) else None
  {
    assert "Choose a library for the " + "symbol" + " " == "Choose a library for the symbol ";
    assert "Choose a library for the " + "footprint" + " " == "Choose a library for the footprint ";
  }

  /** A save is stopped exactly when some file lacks its library, and the first such
      row is named. */
  lemma {:induction false} FirstWithoutLibraryIsSaid(rows: seq<Row>, kind: PreviewKind)
    ensures FirstNoLibrary(rows, kind).Some? <==> exists i :: 0 <= i < |rows| && LacksLibrary(rows[i])
    ensures forall i ::
      0 <= i < |rows| && LacksLibrary(rows[i]) && (forall j :: 0 <= j < i ==> !LacksLibrary(rows[j])) ==>
        FirstNoLibrary(rows, kind) == Some(Asked(rows[i], kind))
  {
    hide NoLibrary, Asked, LacksLibrary;
    if rows != [] {
      var rest, last := rows[..|rows| - 1], rows[|rows| - 1];
      FirstWithoutLibraryIsSaid(rest, kind);
      NoLibraryAsks(last, kind);
      assert forall j :: 0 <= j < |rest| ==> rows[j] == rest[j];
    }
  }
}
