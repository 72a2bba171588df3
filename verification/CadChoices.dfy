/** Edit part's and Add part's footprint choices: how the form numbers the
    copied footprints it sends, so each still points at its own choice once the
    field's text is read again. */
module CadChoices {
  import opened Text
  import opened Lists
  import opened Files

  // ----- rows of Edit part -----

  datatype PreviewKind = Symbol | Footprint {
    function Noun(): string { if Symbol? then "symbol" else "footprint" }
  }

  /** A file that was read for one row, with the models that go with it. */
  datatype FileChoice = FileChoice(file: TeamFile, names: seq<string>, library: string,
                                   modelFiles: seq<TeamFile>, copy: Option<TeamPick>, noModels: bool) {
    function Name(): string {
      if file.symbol.Some? then file.symbol.value else if names != [] then names[0] else []
    }

    function Reference(): string {
      if library == [] then Name() else library + ":" + Name()
    }
  }

  datatype Change = Unchanged | Picked(pick: TeamPick) | FileChosen(choice: FileChoice)

  datatype Row = Row(key: nat, reference: string, before: string, change: Change) {
    predicate IsBlank() { Trim(reference) == [] }
  }

  /** What the rows that are not blank say, trimmed. */
  function Named(rows: seq<Row>): seq<string> {
    if rows == [] then []
    else
      var n := |rows| - 1;
      Named(rows[..n]) + if rows[n].IsBlank() then [] else [Trim(rows[n].reference)]
  }

  /** The files one row sends, being choice number `position`. */
  function Sent(row: Row, kind: PreviewKind, position: nat): seq<TeamFile> {
    match row.change
    case FileChosen(choice) =>
      var isCopy := choice.copy.Some?;
      [choice.file.(replaced := Some(row.before), noModels := isCopy && choice.noModels,
                    choice := if kind == Footprint && isCopy then Some(position) else None)]
      + (if isCopy && !choice.noModels then choice.copy.value.models else [])
      + choice.modelFiles
    case _ => []
  }

  function AllSent(rows: seq<Row>, kind: PreviewKind): seq<TeamFile> {
    if rows == [] then []
    else
      var n := |rows| - 1;
      AllSent(rows[..n], kind) + Sent(rows[n], kind, |Named(rows[..n])|)
  }

  function NoLibrary(row: Row, kind: PreviewKind): Option<string> {
    if row.change.FileChosen? && row.change.choice.library == []
    then Some("Choose a library for the " + kind.Noun() + " " + row.change.choice.Name() + " before you save.")
    else None
  }

  function FirstNoLibrary(rows: seq<Row>, kind: PreviewKind): Option<string> {
    if rows == [] then None
    else
      var n := |rows| - 1;
      var earlier := FirstNoLibrary(rows[..n], kind);
      if earlier.Some? then earlier else NoLibrary(rows[n], kind)
  }

  /** The field's value: the choices that are not blank, in one text. */
  function FootprintValue(rows: seq<Row>): string {
    Join(Named(rows))
  }

  /** What a save reads of the form. */
  class Draft {
    var symbol: string
    var footprint: string
    var files: seq<TeamFile>
    var unchosenLibrary: Option<string>

    constructor ()
      ensures symbol == [] && footprint == [] && files == [] && unchosenLibrary == None
    {
      symbol, footprint, files, unchosenLibrary := [], [], [], None;
    }

    /** Takes the rows over. Without rows for a field its value stays, as a part
        may have no Symbol or no Footprint field. */
    method Sync(symbols: Option<seq<Row>>, footprints: Option<seq<Row>>)
      modifies this
      ensures files == (if symbols.Some? then AllSent(symbols.value, Symbol) else [])
                       + (if footprints.Some? then AllSent(footprints.value, Footprint) else [])
      ensures footprint == if footprints.Some? then FootprintValue(footprints.value) else old(footprint)
      ensures symbol == if symbols.None? then old(symbol)
                        else if symbols.value == [] then [] else symbols.value[0].reference
      ensures unchosenLibrary ==
        var first := if symbols.Some? then FirstNoLibrary(symbols.value, Symbol) else None;
        if first.Some? then first
        else if footprints.Some? then FirstNoLibrary(footprints.value, Footprint) else None
    {
      hide AllSent, FirstNoLibrary, Named, Join;
      var sent: seq<TeamFile> := [];
      var unchosen: Option<string> := None;
      if symbols.Some? {
        sent, unchosen := Collect(symbols.value, Symbol, sent, unchosen);
        symbol := if symbols.value == [] then [] else symbols.value[0].reference;
      }
      if footprints.Some? {
        sent, unchosen := Collect(footprints.value, Footprint, sent, unchosen);
        var named := Names(footprints.value);
        footprint := Join(named);
      }
      files := sent;
      unchosenLibrary := unchosen;
    }
  }

  /** The rows that are not blank, trimmed. */
  method Names(rows: seq<Row>) returns (named: seq<string>)
    ensures named == Named(rows)
  {
    hide Trim;
    named := [];
    for i := 0 to |rows|
      invariant named == Named(rows[..i])
    {
      assert rows[..i + 1][..i] == rows[..i];
      var reference := Trim(rows[i].reference);
      if reference != [] {
        named := named + [reference];
      }
    }
    assert rows[..|rows|] == rows;
  }

  /** Goes through the rows, counting the choices as the field will list them. */
  method Collect(rows: seq<Row>, kind: PreviewKind, before: seq<TeamFile>, unchosenBefore: Option<string>)
    returns (files: seq<TeamFile>, unchosen: Option<string>)
    ensures files == before + AllSent(rows, kind)
    ensures unchosen == if unchosenBefore.Some? then unchosenBefore else FirstNoLibrary(rows, kind)
  {
    hide Sent, NoLibrary, Trim;
    files, unchosen := before, unchosenBefore;
    assert before + [] == before;
    var at := 0;
    for i := 0 to |rows|
      invariant at == |Named(rows[..i])|
      invariant files == before + AllSent(rows[..i], kind)
      invariant unchosen == if unchosenBefore.Some? then unchosenBefore else FirstNoLibrary(rows[..i], kind)
    {
      assert rows[..i + 1][..i] == rows[..i] && rows[..i + 1][i] == rows[i];
      var row := rows[i];
      var position := at;
      if Trim(row.reference) != [] {
        at := at + 1;
      }
      if unchosen.None? {
        unchosen := NoLibrary(row, kind);
      }
      var sent := SendRow(row, kind, position);
      files := files + sent;
      assert files == before + (AllSent(rows[..i], kind) + sent);
    }
    assert rows[..|rows|] == rows;
  }

  /** The file of one row, the models copied with it, then the models chosen for it. */
  method SendRow(row: Row, kind: PreviewKind, position: nat) returns (sent: seq<TeamFile>)
    ensures sent == Sent(row, kind, position)
  {
    if !row.change.FileChosen? {
      return [];
    }
    var choice := row.change.choice;
    var file := choice.file.(
      replaced := Some(row.before),
      noModels := choice.copy.Some? && choice.noModels,
      choice := if kind == Footprint && choice.copy.Some? then Some(position) else None);
    sent := [file];
    if choice.copy.Some? && !choice.noModels {
      sent := sent + choice.copy.value.models;
    } else {
      assert sent + [] == sent;
    }
    sent := sent + choice.modelFiles;
  }

  // ----- the form opened again -----

  /** The rows made from a field's value; `was` is its value before the form. */
  function RowsOf(value: string, was: string, firstKey: nat): seq<Row> {
    var choices, earlier := Choices(value), Trimmed(Split(was));
    if choices == [] then [Row(firstKey, [], [], Unchanged)]
    else
      seq(|choices|, i requires 0 <= i < |choices| =>
        Row(firstKey + i, choices[i], if i < |earlier| then earlier[i] else [], Unchanged))
  }

  function NotBlank(rows: seq<Row>): seq<Row> {
    if rows == [] then []
    else (if rows[0].IsBlank() then [] else [rows[0]]) + NotBlank(rows[1..])
  }

  /** The key of the row a file sent before goes back to. */
  function RowFor(file: TeamFile, kind: PreviewKind, rows: seq<Row>): Option<nat> {
    var named := NotBlank(rows);
    if kind == Footprint && file.choice.Some? && file.choice.value < |named| then Some(named[file.choice.value].key)
    else if rows != [] then Some(rows[0].key)
    else None
  }

  /** The rows of one field, changed in place by their key. */
  class Rows {
    var rows: seq<Row>

    constructor (made: seq<Row>)
      ensures rows == made
    {
      rows := made;
    }

    /** A file was read for the row `key`: the row says where it goes. */
    method ChooseFile(key: nat, choice: FileChoice)
      modifies this
      ensures |rows| == |old(rows)|
      ensures forall i :: 0 <= i < |rows| ==>
        rows[i] == if old(rows)[i].key == key && forall j :: 0 <= j < i ==> old(rows)[j].key != key
                   then old(rows)[i].(reference := choice.Reference(), change := FileChosen(choice))
                   else old(rows)[i]
    {
      for i := 0 to |rows|
        invariant rows == old(rows)
        invariant forall j :: 0 <= j < i ==> rows[j].key != key
      {
        if rows[i].key == key {
          rows := rows[i := rows[i].(reference := choice.Reference(), change := FileChosen(choice))];
          return;
        }
      }
    }
  }

  // ----- the numbering -----

  lemma {:induction false} NamedIs(rows: seq<Row>)
    ensures forall n :: n in Named(rows) ==>
      n != [] && IsTrimmed(n) && exists r :: r in rows && !r.IsBlank() && n == Trim(r.reference)
    ensures forall r :: r in rows && !r.IsBlank() ==> Trim(r.reference) in Named(rows)
  {
    if rows != [] {
      var rest, last := rows[..|rows| - 1], rows[|rows| - 1];
      assert rows == rest + [last];
      NamedIs(rest);
    }
  }

  /** Row `i`, when not blank, is choice number `|Named(rows[..i])|`. */
  lemma {:induction false} RowIsItsChoice(rows: seq<Row>, i: nat)
    requires i < |rows|
    ensures |Named(rows[..i])| <= |Named(rows)|
    ensures !rows[i].IsBlank() ==>
      |Named(rows[..i])| < |Named(rows)| && Named(rows)[|Named(rows[..i])|] == Trim(rows[i].reference)
    decreases |rows|
  {
    hide Trim;
    var n := |rows| - 1;
    if i < n {
      RowIsItsChoice(rows[..n], i);
      assert rows[..n][..i] == rows[..i];
    }
  }

  lemma {:induction false} TrimmedNamed(items: seq<string>)
    requires forall n :: n in items ==> IsTrimmed(n)
    ensures Trimmed(items) == items
  {
    forall i | 0 <= i < |items| ensures Trimmed(items)[i] == items[i] {
      assert items[i] in items;
      TrimOfTrimmed(items[i]);
    }
  }

  /** The field's text reads back as the rows' choices, in order, exactly when
      no choice holds a `;`. */
  lemma {:induction false} FieldReadsBackExactly(rows: seq<Row>)
    ensures Choices(FootprintValue(rows)) == Named(rows)
      <==> forall r :: r in rows && !r.IsBlank() ==> ';' !in r.reference
  {
    NamedIs(rows);
    var named := Named(rows);
    forall n | n in named ensures IsTrimmed(n) && Trim(n) == n {
      TrimOfTrimmed(n);
    }
    TrimmedNamed(named);
    ReadsBackExactly(named);
    forall r | r in rows && !r.IsBlank() ensures ';' in r.reference <==> ';' in Trim(r.reference) {
      TrimKeepsSemicolon(r.reference);
    }
  }

  /** Row `i`'s number reads back as the row's own choice. */
  predicate PointsAtOwn(rows: seq<Row>, i: nat)
    requires i < |rows|
  {
    var choices, at := Choices(FootprintValue(rows)), |Named(rows[..i])|;
    at < |choices| && choices[at] == Trim(rows[i].reference)
  }

  /** Every choice's number points at the choice itself exactly when none holds a
      `;`. A blank row has no choice its number could point at. */
  lemma NumbersPointAtOwnExactly(rows: seq<Row>)
    ensures (forall i: nat :: i < |rows| && !rows[i].IsBlank() ==> PointsAtOwn(rows, i))
      <==> forall r :: r in rows && !r.IsBlank() ==> ';' !in r.reference
    ensures forall i: nat :: i < |rows| && rows[i].IsBlank() ==> !PointsAtOwn(rows, i)
  {
    FieldReadsBackExactly(rows);
    hide FootprintValue, Named;
    var choices := Choices(FootprintValue(rows));
    forall i: nat | i < |rows| && !rows[i].IsBlank()
      ensures PointsAtOwn(rows, i) ==> ';' !in rows[i].reference
      ensures choices == Named(rows) ==> PointsAtOwn(rows, i)
    {
      RowIsItsChoice(rows, i);
      TrimKeepsSemicolon(rows[i].reference);
      ChoicesHoldNoSemicolon(FootprintValue(rows));
    }
    forall r | r in rows && !r.IsBlank()
      ensures (forall i: nat :: i < |rows| && !rows[i].IsBlank() ==> PointsAtOwn(rows, i)) ==> ';' !in r.reference
    {
      var i: nat :| i < |rows| && rows[i] == r;
    }
  }

  lemma ChoicesHoldNoSemicolon(value: string)
    ensures forall c :: c in Choices(value) ==> ';' !in c
  {
    forall c | c in Choices(value) ensures ';' !in c {
      var p :| p in Split(value) && c == Trim(p);
      TrimKeepsSemicolon(p);
    }
  }

  // ----- from the row to the form opened again and to the saved part -----

  /** The row copies a file from an installed library. */
  predicate IsCopy(row: Row) {
    row.change.FileChosen? && row.change.choice.copy.Some?
  }

  /** The copied file row `i` sends. */
  function CopySent(rows: seq<Row>, i: nat): TeamFile
    requires i < |rows| && IsCopy(rows[i])
  {
    Sent(rows[i], Footprint, |Named(rows[..i])|)[0]
  }

  lemma {:induction false} CopyIsSent(rows: seq<Row>, i: nat)
    requires i < |rows| && IsCopy(rows[i])
    ensures CopySent(rows, i) in AllSent(rows, Footprint)
    ensures CopySent(rows, i).choice == Some(|Named(rows[..i])|)
    decreases |rows|
  {
    hide Trim, Sent;
    var n := |rows| - 1;
    var at := |Named(rows[..n])|;
    assert AllSent(rows, Footprint) == AllSent(rows[..n], Footprint) + Sent(rows[n], Footprint, at);
    SentHasCopy(rows[i], |Named(rows[..i])|);
    hide AllSent, Named;
    if i < n {
      CopyIsSent(rows[..n], i);
      assert rows[..n][..i] == rows[..i];
    }
  }

  lemma SentHasCopy(row: Row, at: nat)
    requires IsCopy(row)
    ensures var sent := Sent(row, Footprint, at); sent != [] && sent[0] in sent && sent[0].choice == Some(at)
  {
  }

  /** A file goes back to row `at`, and to no other. */
  ghost predicate GoesBackTo(file: TeamFile, rows: seq<Row>, at: nat) {
    at < |rows| && RowFor(file, Footprint, rows) == Some(rows[at].key)
    && forall j :: 0 <= j < |rows| && rows[j].key == rows[at].key ==> j == at
  }

  /** A number in reach goes back to the row that says its choice. */
  lemma NumberGoesBack(file: TeamFile, at: nat, value: string, was: string, firstKey: nat)
    requires file.choice == Some(at)
    ensures var again := RowsOf(value, was, firstKey);
      && (at < |Choices(value)| ==> GoesBackTo(file, again, at) && again[at].reference == Choices(value)[at])
      && (at >= |Choices(value)| && at < |again| ==> again[at].reference == [])
  {
    hide RowsOf, Choices, NotBlank;
    if Choices(value) == [] {
      NoRowsReadBack(value, was, firstKey);
    } else {
      RowsReadBack(value, was, firstKey);
    }
  }

  lemma NoRowsReadBack(value: string, was: string, firstKey: nat)
    requires Choices(value) == []
    ensures RowsOf(value, was, firstKey) == [Row(firstKey, [], [], Unchanged)]
  {
  }

  /** `file` is saved as the choice `own` exactly when `points` and `own` names
      it, and refused when `own` does not name it. */
  predicate IsSavedAsExactly(file: TeamFile, name: string, choices: seq<string>, own: string, points: bool) {
    && (ChoiceFor(file, name, choices) == Some(own) <==> points && IsNamed(own, name))
    && (points && !IsNamed(own, name) ==> ChoiceFor(file, name, choices) == None)
  }

  /** What a form sends for a copy comes back, when the form is opened again, to
      the row that says the same choice, and is saved as that choice when the
      choice names it, exactly when its number points at its own choice. */
  lemma {:induction false} CopyArrivesExactly(rows: seq<Row>, i: nat, name: string, was: string, firstKey: nat)
    requires i < |rows| && IsCopy(rows[i])
    ensures var file, own := CopySent(rows, i), Trim(rows[i].reference);
      var choices, again := Choices(FootprintValue(rows)), RowsOf(FootprintValue(rows), was, firstKey);
      && file in AllSent(rows, Footprint) && file.choice.Some?
      && (own != [] ==>
            (GoesBackTo(file, again, file.choice.value) && again[file.choice.value].reference == own
             <==> PointsAtOwn(rows, i)))
      && IsSavedAsExactly(file, name, choices, own, PointsAtOwn(rows, i))
  {
    hide Choices, FootprintValue, Named, RowsOf, Sent, AllSent, Trim, IsNamed, GoesBackTo, CopySent;
    CopyIsSent(rows, i);
    var file, again := CopySent(rows, i), RowsOf(FootprintValue(rows), was, firstKey);
    NumberGoesBack(file, file.choice.value, FootprintValue(rows), was, firstKey);
    InRows(file, again, file.choice.value);
  }

  lemma InRows(file: TeamFile, rows: seq<Row>, at: nat)
    ensures GoesBackTo(file, rows, at) ==> at < |rows|
  {
  }

  /** With no `;` in the choices, every copy arrives: it is saved as its choice,
      trimmed, when that names it, and refused when it does not. */
  lemma {:induction false} CopiesArrive(rows: seq<Row>, i: nat, name: string, was: string, firstKey: nat)
    requires i < |rows| && IsCopy(rows[i]) && !rows[i].IsBlank()
    requires forall r :: r in rows && !r.IsBlank() ==> ';' !in r.reference
    ensures var file, own := CopySent(rows, i), Trim(rows[i].reference);
      var again, at := RowsOf(FootprintValue(rows), was, firstKey), file.choice.value;
      && file in AllSent(rows, Footprint)
      && GoesBackTo(file, again, at) && again[at].reference == own
      && ChoiceFor(file, name, Choices(FootprintValue(rows))) == if IsNamed(own, name) then Some(own) else None
  {
    hide Choices, FootprintValue, Named, RowsOf, Sent, AllSent, Trim, SplitOnce, GoesBackTo, CopySent;
    NumbersPointAtOwnExactly(rows);
    CopyArrivesExactly(rows, i, name, was, firstKey);
  }

  /** A choice written `LIBRARY:NAME` names that footprint, once trimmed, exactly
      when no white space ends its name. */
  lemma TrimmedChoiceNames(library: string, name: string)
    requires ':' !in library
    ensures IsNamed(Trim(library + ":" + name), name) <==> name == [] || !IsSpace(name[|name| - 1])
  {
    TrimStartOfChoice(library, name);
    TrimEndOfChoice(TrimStart(library), name);
    TrimStartIsEnd(library);
    SplitsAtColon(TrimStart(library), TrimEnd(name));
  }

  lemma {:induction false} TrimStartOfChoice(library: string, name: string)
    ensures TrimStart(library + ":" + name) == TrimStart(library) + ":" + name
  {
    var whole := library + ":" + name;
    if library == [] {
      assert whole[0] == ':';
      assert TrimStart(whole) == whole;
    } else {
      assert whole[0] == library[0] && whole[1..] == library[1..] + ":" + name;
      if IsSpace(library[0]) {
        TrimStartOfChoice(library[1..], name);
      }
    }
  }

  lemma {:induction false} TrimEndOfChoice(library: string, name: string)
    ensures TrimEnd(library + ":" + name) == library + ":" + TrimEnd(name)
  {
    var whole := library + ":" + name;
    if name == [] {
      assert whole[|whole| - 1] == ':';
    } else {
      assert whole[|whole| - 1] == name[|name| - 1] && whole[..|whole| - 1] == library + ":" + name[..|name| - 1];
      if IsSpace(name[|name| - 1]) {
        TrimEndOfChoice(library, name[..|name| - 1]);
      }
    }
  }

  lemma {:induction false} TrimStartIsEnd(library: string)
    ensures forall c :: c in TrimStart(library) ==> c in library
  {
    if library != [] && IsSpace(library[0]) {
      TrimStartIsEnd(library[1..]);
    }
  }

  /** A `;` in one choice, such as an item picked from a library with `;` in its
      name, sends the copy of the next to another choice: the copy is saved as
      `b` when that has its name, and is refused otherwise, and the form opened
      again puts it in the row of `b`. */
  lemma SemicolonMisleads(a: string, b: string, pick: TeamPick, choice: FileChoice, name: string, was: string,
                          firstKey: nat)
    requires a != [] && b != [] && IsTrimmed(a) && IsTrimmed(b) && ';' !in a && ';' !in b
    requires pick.reference == a + ";" + b
    requires choice.copy.Some?
    requires choice.Reference() != [] && IsTrimmed(choice.Reference()) && ';' !in choice.Reference()
    ensures var c := choice.Reference();
      var rows := [Row(1, pick.reference, [], Picked(pick)), Row(2, c, [], FileChosen(choice))];
      var file, again := CopySent(rows, 1), RowsOf(FootprintValue(rows), was, firstKey);
      && Choices(FootprintValue(rows)) == [a, b, c]
      && file in AllSent(rows, Footprint)
      && ChoiceFor(file, name, [a, b, c]) == (if IsNamed(b, name) then Some(b) else None)
      && GoesBackTo(file, again, 1) && again[1].reference == b
      && (PointsAtOwn(rows, 1) <==> b == c)
  {
    var c := choice.Reference();
    var rows := [Row(1, pick.reference, [], Picked(pick)), Row(2, c, [], FileChosen(choice))];
    SemicolonReadsBack(rows, a, b, c);
    TrimOfTrimmed(c);
    hide Choices, FootprintValue, Named, GoesBackTo, CopySent;
    hide IsNamed, RowsOf, Sent, AllSent, FileChoice.Reference, Trim;
    CopyIsSent(rows, 1);
    NumberGoesBack(CopySent(rows, 1), 1, FootprintValue(rows), was, firstKey);
  }

  lemma SemicolonReadsBack(rows: seq<Row>, a: string, b: string, c: string)
    requires |rows| == 2 && rows[0].reference == a + ";" + b && rows[1].reference == c
    requires a != [] && b != [] && c != [] && IsTrimmed(a) && IsTrimmed(b) && IsTrimmed(c)
    requires ';' !in a && ';' !in b && ';' !in c
    ensures |Named(rows[..1])| == 1 && Choices(FootprintValue(rows)) == [a, b, c]
  {
    var both := a + ";" + b;
    assert both[0] == a[0] && both[|both| - 1] == b[|b| - 1];
    TrimOfTrimmed(both);
    TrimOfTrimmed(c);
    TrimOfTrimmed(a);
    TrimOfTrimmed(b);
    hide Trim, IsTrimmed;
    NamedOne(rows[0]);
    NamedTwo(rows[0], rows[1]);
    assert rows == [rows[0], rows[1]] && rows[..1] == [rows[0]];
    ThreePieces(a, b, c);
    KeptIsTrimmed([a, b, c]);
  }

  lemma ThreePieces(a: string, b: string, c: string)
    requires ';' !in a && ';' !in b && ';' !in c
    ensures Split(Join([a + ";" + b, c])) == [a, b, c]
  {
    assert [a + ";" + b, c][1..] == [c];
    assert Join([a + ";" + b, c]) == a + ";" + (b + ";" + c);
    SplitFirst(a, b + ";" + c);
    SplitFirst(b, c);
    SplitFirst(c, []);
  }

  lemma NamedOne(a: Row)
    requires !a.IsBlank()
    ensures Named([a]) == [Trim(a.reference)]
  {
    assert [a][..0] == [];
  }

  lemma NamedTwo(a: Row, b: Row)
    requires !a.IsBlank() && !b.IsBlank()
    ensures Named([a, b]) == [Trim(a.reference), Trim(b.reference)]
  {
    NamedOne(a);
    assert [a, b][..1] == [a];
  }

  lemma {:induction false} AllNotBlank(rows: seq<Row>)
    requires forall r :: r in rows ==> !r.IsBlank()
    ensures NotBlank(rows) == rows
  {
    if rows != [] {
      AllNotBlank(rows[1..]);
      assert rows == [rows[0]] + rows[1..];
    }
  }

  lemma RowsReadBack(value: string, was: string, firstKey: nat)
    requires Choices(value) != []
    ensures var again := RowsOf(value, was, firstKey);
      && |again| == |Choices(value)| && NotBlank(again) == again
      && forall j :: 0 <= j < |again| ==> again[j].reference == Choices(value)[j] && again[j].key == firstKey + j
  {
    var again := RowsOf(value, was, firstKey);
    forall r | r in again ensures !r.IsBlank() {
      var k :| 0 <= k < |again| && again[k] == r;
      assert Choices(value)[k] in Choices(value);
      TrimOfTrimmed(r.reference);
    }
    AllNotBlank(again);
  }

  // ----- Add part -----

  /** A footprint choice of a new part after its first. */
  datatype Extra = Extra(pick: TeamPick, library: string, noModels: bool) {
    function Reference(): string {
      if pick.useAs == Copy then Labelled(library, pick.name) else pick.reference
    }

    predicate IsCopy() { pick.useAs == Copy && pick.file.Some? }
  }

  function Labelled(library: string, name: string): string {
    if library == [] || name == [] then name else library + ":" + name
  }

  /** Add part's footprint choices. The first is a footprint known to fit, an
      item picked, or the file read; `picked` is the footprint item picked. */
  datatype NewPart = NewPart(known: Option<string>, picked: Option<TeamPick>, file: Option<TeamFile>, fileName: string,
                             library: string, models: seq<TeamFile>, model: Option<nat>, noModels: bool,
                             extras: seq<Extra>)
  {
    predicate PicksByReference() { picked.Some? && picked.value.useAs != Copy }

    predicate PicksCopy() { picked.Some? && picked.value.useAs == Copy }

    function FirstFile(): Option<TeamFile> {
      if known.None? && !PicksByReference() then file else None
    }

    function FirstReference(): string {
      if known.Some? then known.value
      else if PicksByReference() then picked.value.reference
      else if file.Some? then Labelled(library, fileName)
      else []
    }

    /** A file has no library of ours chosen for it, so saving stops. */
    predicate LacksLibrary() {
      (FirstFile().Some? && library == [])
      || exists e :: e in extras && e.pick.useAs == Copy && e.library == []
    }

    /** Every choice, blank ones included. */
    function References(): seq<string> { ReferencesOf(FirstReference(), extras) }

    function FootprintField(): string { Join(NotEmpty(References())) }

    function Files(): seq<TeamFile> { FirstSent(this) + ExtrasSent(FirstReference(), extras) }
  }

  function NotEmpty(items: seq<string>): seq<string> {
    if items == [] then []
    else
      var n := |items| - 1;
      NotEmpty(items[..n]) + if items[n] == [] then [] else [items[n]]
  }

  /** The first choice and those of the extras. */
  function ReferencesOf(first: string, extras: seq<Extra>): seq<string> {
    [first] + seq(|extras|, i requires 0 <= i < |extras| => extras[i].Reference())
  }

  /** The files of the first choice: a copy with its models, or a downloaded file
      with the model chosen for it. */
  function FirstSent(part: NewPart): seq<TeamFile> {
    if part.FirstFile().None? then []
    else
      var file := part.FirstFile().value;
      if part.PicksCopy()
      then [file.(noModels := part.noModels, choice := Some(0))] + if part.noModels then [] else part.models
      else [file] + if part.model.Some? && part.model.value < |part.models| then [part.models[part.model.value]] else []
  }

  /** The files one extra sends, being choice number `choice`. */
  function ExtraSent(extra: Extra, choice: nat): seq<TeamFile> {
    if extra.IsCopy() then
      [extra.pick.file.value.(noModels := extra.noModels, choice := Some(choice))]
      + (if extra.noModels then [] else extra.pick.models)
    else []
  }

  function ExtrasSent(first: string, extras: seq<Extra>): seq<TeamFile> {
    if extras == [] then []
    else
      var n := |extras| - 1;
      ExtrasSent(first, extras[..n]) + ExtraSent(extras[n], |NotEmpty(ReferencesOf(first, extras[..n]))|)
  }

  /** The footprint field and the files of a new part's footprint choices; none
      when a file has no library. */
  method SaveFootprints(part: NewPart) returns (saved: Option<(string, seq<TeamFile>)>)
    ensures saved.None? <==> part.LacksLibrary()
    ensures saved.Some? ==> saved.value == (part.FootprintField(), part.Files())
  {
    hide ExtraSent, FirstSent, NotEmpty, Extra.Reference, NewPart.FirstReference;
    if part.LacksLibrary() {
      return None;
    }
    var extras, first := part.extras, part.FirstReference();
    var files := SendFirst(part);
    assert files + [] == files;
    var footprints := [first];
    for i := 0 to |extras|
      invariant footprints == ReferencesOf(first, extras[..i])
      invariant files == FirstSent(part) + ExtrasSent(first, extras[..i])
    {
      assert extras[..i + 1][..i] == extras[..i];
      var extra := extras[i];
      var choice := |NotEmpty(footprints)|;
      footprints := footprints + [extra.Reference()];
      assert footprints == ReferencesOf(first, extras[..i + 1]);
      var sent := ExtraSent(extra, choice);
      assert (FirstSent(part) + ExtrasSent(first, extras[..i])) + sent
          == FirstSent(part) + (ExtrasSent(first, extras[..i]) + sent);
      files := files + sent;
    }
    assert extras[..|extras|] == extras;
    saved := Some((Join(NotEmpty(footprints)), files));
  }

  method SendFirst(part: NewPart) returns (files: seq<TeamFile>)
    ensures files == FirstSent(part)
  {
    files := [];
    if part.FirstFile().Some? {
      var file := part.FirstFile().value;
      if part.PicksCopy() {
        files := files + [file.(noModels := part.noModels, choice := Some(0))];
        if !part.noModels {
          files := files + part.models;
        }
      } else {
        files := files + [file];
        if part.model.Some? && part.model.value < |part.models| {
          files := files + [part.models[part.model.value]];
        }
      }
    }
  }

  lemma {:induction false} NotEmptyIs(items: seq<string>)
    ensures forall n :: n in NotEmpty(items) <==> n in items && n != []
  {
    if items != [] {
      var rest, last := items[..|items| - 1], items[|items| - 1];
      assert items == rest + [last];
      NotEmptyIs(rest);
    }
  }

  lemma {:induction false} ItemIsItsChoice(items: seq<string>, k: nat)
    requires k < |items| && items[k] != []
    ensures |NotEmpty(items[..k])| < |NotEmpty(items)| && NotEmpty(items)[|NotEmpty(items[..k])|] == items[k]
    decreases |items|
  {
    var n := |items| - 1;
    if k < n {
      ItemIsItsChoice(items[..n], k);
      assert items[..n][..k] == items[..k];
    }
  }

  /** Item `k`'s number reads back, from the field of all items that are not
      empty, as the item itself. */
  predicate ItemPointsAtOwn(items: seq<string>, k: nat)
    requires k < |items|
  {
    var choices, at := Choices(Join(NotEmpty(items))), |NotEmpty(items[..k])|;
    at < |choices| && choices[at] == Trim(items[k])
  }

  /** A new part's footprint field reads back as its choices, and each choice's
      number points at the choice itself, exactly when none that is written is
      blank and none holds a `;`. */
  lemma {:induction false} NewPartReadsBackExactly(items: seq<string>)
    ensures var written := NotEmpty(items);
      var plain := forall w :: w in written ==> Trim(w) != [] && ';' !in w;
      && (Choices(Join(written)) == Trimmed(written) <==> plain)
      && ((forall k: nat :: k < |items| && items[k] != [] ==> ItemPointsAtOwn(items, k)) <==> plain)
  {
    var written := NotEmpty(items);
    ReadsBackExactly(written);
    NotEmptyIs(items);
    hide NotEmpty, Choices, Join, Trim, ItemPointsAtOwn;
    forall k: nat | k < |items| && items[k] != []
      ensures Choices(Join(written)) == Trimmed(written) ==> ItemPointsAtOwn(items, k)
      ensures ItemPointsAtOwn(items, k) ==> Trim(items[k]) != [] && ';' !in items[k]
    {
      ItemReadsBack(items, k);
    }
    if forall k: nat :: k < |items| && items[k] != [] ==> ItemPointsAtOwn(items, k) {
      forall w | w in written ensures Trim(w) != [] && ';' !in w {
        var k: nat :| k < |items| && items[k] == w;
        assert ItemPointsAtOwn(items, k);
      }
    }
  }

  lemma {:induction false} ItemReadsBack(items: seq<string>, k: nat)
    requires k < |items| && items[k] != []
    ensures Choices(Join(NotEmpty(items))) == Trimmed(NotEmpty(items)) ==> ItemPointsAtOwn(items, k)
    ensures ItemPointsAtOwn(items, k) ==> Trim(items[k]) != [] && ';' !in items[k]
  {
    var value := Join(NotEmpty(items));
    ChoicesHoldNoSemicolon(value);
    ItemIsItsChoice(items, k);
    TrimKeepsSemicolon(items[k]);
    assert forall c :: c in Choices(value) ==> c != [];
    hide NotEmpty, Choices, Join, Trim;
  }

  lemma {:induction false} ExtraIsSent(first: string, extras: seq<Extra>, k: nat)
    requires k < |extras| && extras[k].IsCopy()
    ensures ExtraSent(extras[k], |NotEmpty(ReferencesOf(first, extras)[..k + 1])|)[0] in ExtrasSent(first, extras)
    decreases |extras|
  {
    hide NotEmpty;
    var n := |extras| - 1;
    if k < n {
      ExtraIsSent(first, extras[..n], k);
      assert ReferencesOf(first, extras[..n])[..k + 1] == ReferencesOf(first, extras)[..k + 1];
    } else {
      assert ReferencesOf(first, extras[..n]) == ReferencesOf(first, extras)[..k + 1];
    }
  }

  lemma NumberIsSaved(file: TeamFile, at: nat, name: string, choices: seq<string>, own: string)
    requires file.choice == Some(at)
    ensures IsSavedAsExactly(file, name, choices, own, at < |choices| && choices[at] == own)
  {
  }

  /** The copy of a new part's first choice is sent, and saved as that choice,
      trimmed, exactly when number 0 points at it and the choice names it. */
  lemma FirstCopyArrivesExactly(part: NewPart, name: string)
    requires part.PicksCopy() && part.FirstFile().Some?
    ensures var items, file := part.References(), FirstSent(part)[0];
      && file in part.Files()
      && IsSavedAsExactly(file, name, Choices(part.FootprintField()), Trim(items[0]), ItemPointsAtOwn(items, 0))
  {
    var items, file := part.References(), FirstSent(part)[0];
    assert items[..0] == [];
    assert file.choice == Some(0) && file in FirstSent(part);
    hide Choices, Trim, IsSavedAsExactly, FirstSent, NewPart.FirstReference, NewPart.FirstFile;
    NumberIsSaved(file, 0, name, Choices(part.FootprintField()), Trim(items[0]));
  }

  /** The same for the copy of each further choice. */
  lemma ExtraCopyArrivesExactly(part: NewPart, k: nat, name: string)
    requires k < |part.extras| && part.extras[k].IsCopy()
    ensures var items, own := part.References(), Trim(part.extras[k].Reference());
      var file := ExtraSent(part.extras[k], |NotEmpty(items[..k + 1])|)[0];
      && file in part.Files()
      && IsSavedAsExactly(file, name, Choices(part.FootprintField()), own, ItemPointsAtOwn(items, k + 1))
  {
    hide Choices, Trim, IsSavedAsExactly, FirstSent, NotEmpty, NewPart.FirstReference, Extra.Reference;
    var items, at := part.References(), |NotEmpty(part.References()[..k + 1])|;
    ExtraIsSent(part.FirstReference(), part.extras, k);
    NumberIsSaved(ExtraSent(part.extras[k], at)[0], at, name, Choices(part.FootprintField()), Trim(items[k + 1]));
  }
}
