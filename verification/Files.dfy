/** The files a save sends, and the items chosen from libraries. */
module Files {
  import opened Text

  datatype FileKind = SymbolFile | FootprintFile | ModelFile

  /** Where a copied file came from; `link` is a 3D model's link in its footprint. */
  datatype InstalledFile = InstalledFile(library: string, path: string, link: Option<string>)

  datatype TeamFile = TeamFile(
    kind: FileKind,
    fileName: string,
    base64: string,
    symbol: Option<string>,
    modelKey: Option<string>,
    replaced: Option<string>,
    sourceLabel: Option<string>,
    installed: Option<InstalledFile>,
    noModels: bool,
    choice: Option<nat>)

  datatype PickUse = ByReference | Copy

  datatype TeamPick = TeamPick(name: string, reference: string, useAs: PickUse, file: Option<TeamFile>,
                               models: seq<TeamFile>)

  /** `reference` at its first `:`. */
  function SplitOnce(reference: string): Option<(string, string)> {
    if reference == [] then None
    else if reference[0] == ':' then Some(([], reference[1..]))
    else
      var rest := SplitOnce(reference[1..]);
      if rest.None? then None else Some(([reference[0]] + rest.value.0, rest.value.1))
  }

  lemma {:induction false} SplitsAtColon(library: string, name: string)
    requires ':' !in library
    ensures SplitOnce(library + ":" + name) == Some((library, name))
  {
    var reference := library + ":" + name;
    if library == [] {
      assert reference[1..] == name;
    } else {
      SplitsAtColon(library[1..], name);
      assert reference[1..] == library[1..] + ":" + name;
      assert library == [library[0]] + library[1..];
    }
  }

  /** The choice at `file.choice` when it is named `name`; from an older app the
      first choice named so. */
  function ChoiceFor(file: TeamFile, name: string, choices: seq<string>): Option<string> {
    match file.choice
    case Some(at) => if at < |choices| && IsNamed(choices[at], name) then Some(choices[at]) else None
    case None => FirstNamed(choices, name)
  }

  predicate IsNamed(choice: string, name: string) {
    SplitOnce(choice).Some? && SplitOnce(choice).value.1 == name
  }

  function FirstNamed(choices: seq<string>, name: string): Option<string> {
    if choices == [] then None
    else if IsNamed(choices[0], name) then Some(choices[0])
    else FirstNamed(choices[1..], name)
  }
}
