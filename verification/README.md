# KiCad Parts: a verified model

A Dafny model of the parts of the KiCad Parts desktop app that are hardest to
get right, with proofs of what they promise. `dafny verify dfyconfig.toml`
checks all of it.

## What is modelled

- **The 3D view's camera** (`Plane`, `Regions`, `ConvexOutline`, `ShiftLimit`,
  `Mixtures`, `BoxOutline`, `SixCorners`, `Camera`, `FittingView`,
  `CameraPose`). The box's eight corners are projected, their convex outline is
  found with Andrew's monotone chain, and every change of the view ends in
  `Settled`, which moves the shift to the nearest point of the outline. The
  outline is proved to be the exact picture of the whole box, so the middle of
  the view shows the model in every view a person can reach. Where the camera
  stands, what a turn, a zoom and a pan do to that, and what is under the
  pointer are proved in the world's own directions.
- **The part list's search and loading** (`Search`, `PartRows`, `PartList`,
  `ListSystem`, `ListRuns`). The numbered, debounced search and the list behind
  it are one system of steps. Timers fire and answers come in any order, keys
  recur, and the teams' catalogs change in the middle. What a person then sees
  is proved in terms of the answers that came and of what was typed and chosen.
- **CAD choices** (`Lists`, `Files`, `CadChoices`, `RowFiles`, `NewPartSaves`,
  `CopiedFootprints`, `PlainSaves`, `RowsToSave`, `SurprisingSaves`). The form
  numbers copied footprints by their place among the choices, the field is one
  text joined with `;`, and saving points each outside 3D model link at a place
  of its own.
- **The calendar and the codecs** (`AsOf`, `Base64`, `CssString`, `Hex`,
  `Names`, `SplitOut`), each against an independent definition: the calendar
  counted day by day, a decoder after section 4 of RFC 4648, a string tokenizer
  after sections 3.3, 4.3.5 and 4.3.7 of CSS Syntax Module Level 3, a reader of
  the `_hex_` escapes, and the one leftmost-longest split.
- **Focus and retries** (`ListFocus`, `RetrySlot`), over every run of their
  events; retries also together with a server that keeps one effect per ID.

Code that updates a field, a signal or a local list step by step is a class or
a method with loops, proved equal to a function; the lemmas are about those
functions. `Text` holds optional values and trimming.

## How the outside world enters

- Numbers are exact reals and integers. A JavaScript value that may not be
  finite is a `Camera.Number`.
- `cos`, `sin`, `sqrt` and pi are given in `Camera.Maths`. What is used of them
  is in `Lawful`: cosine and sine are a unit pair at every angle, obey the
  addition laws, are 1 and 0 at angle 0 and again after a whole turn, and are
  positive at half the field of view; a square root is a square root, and pi is
  positive.
- Distances are compared as squares. JavaScript's sort is a sort by insertion;
  `ConvexOutline.SortedOrderIsUnique` shows that any sort gives that list.
- `CopiedFootprints.Catalog` holds the operations of other crates that saving a
  copied footprint uses. A footprint file is its 3D model links in order and the
  rest of its text. The one law assumed, `Lawful`, is that a link to a place of
  the catalog is not outside it.
- `footprint_choices` is not part of this model; the choices of a saved field
  are read with the form's own rule (split at `;`, trim, drop the blank ones).
- New correlation IDs are given with each event; `AllFresh` says they differ.

## What holds only under a condition

- The part list keeps loaded parts under a key. While neither words nor team hold
  U+001F, which separates the key's pieces, two lists have one key exactly when
  they are one search: the same words without white space around them, reference,
  team, grouping and position of the teams' catalogs (`KeysTellSearchesApart`).
  With U+001F typed, a search can have the key of a list limited to a reference
  (`SeparatorMixesUp`).
- In the form opened on a field that is as it was, each row says it replaces the
  choice it shows exactly when no blank choice comes before one that is not blank
  (`RowsReplaceTheirOwnExactly`).
- A field of footprint choices reads back exactly when no choice holds a `;`
  (`FieldReadsBackExactly`), and this is also exactly when every choice's number
  points at the choice itself (`NumbersPointAtOwnExactly`). A copy is saved as
  its choice exactly when its number points at it and the choice names it
  (`CopyArrivesExactly`); a choice whose name ends in white space does not, as
  it is trimmed (`TrimmedChoiceNames`). `SemicolonMisleads` has a picked item
  with a `;` in its name: the copy in the next row is then saved as another
  choice, or refused. For a new part, `NewPartReadsBackExactly` gives the same,
  where a choice that is only blanks is counted but not read back.
- Of everything the copied footprints of a save send, footprints as well as
  models, only what the first file sends to a place is kept
  (`UploadIsSavedExactly`). A link's own model is the first one sent for a link
  of that text. A link leads to its own model, in a text that is saved, exactly
  when the first file with a model for that place and the first file for the
  footprint's reference both send the same (`LinkLeadsToOwnExactly`). All copied
  footprints are saved and all their links lead to their own models exactly when
  no two files send different uploads to one place (`AllLinksLeadToOwnExactly`).
  `LaterModelIsLost` has two footprints for which a link leads to the other's
  model; `LaterFootprintIsLost` has two of one name from different libraries,
  of which the second is not saved at all. From the form's rows, the link leads
  to the model copied with its row exactly when, besides, no file before the row
  brings another model for the same link (`RowsLinkLeadsToItsModelExactly`).
- The history's source of a changed footprint is cut at 255 characters. It says
  how the footprint was changed exactly when its own source leaves room for that
  (`HistorySaysExactly`), and is the source of an unchanged footprint exactly
  when its own source is cut already, or looks so (`SourceStaysExactly`).
  `CutSourceHidesChange` has a save in which it does not say it.
- The view a model starts in shows all of the model's sphere from side to side
  exactly when it is wide enough for its height, which a view at least a quarter
  as wide as high always is (`FittingViewShowsSphere`, `LeastZoomIsWideEnough`).
- A text with U+0000 does not come back from a CSS string; U+FFFD comes
  instead (`ReadsBack`).
- A zoom, a pan or a turn keeps its place under the pointer, or the centre on
  screen, exactly when the shift asked for is still over the model
  (`ZoomKeepsPointer`, `PanFollowsPointer`, `TurnKeepsCentre`).

## Model

| member | source | states |
|---|---|---|
| ConvexOutline.HalfOutline | apps/desktop-ui/js/view3d-camera.js:197-205 | the push and pop loop over sorted points terminates with the chain that the lemmas are about, without its last point |
| ConvexOutline.FindOutline | apps/desktop-ui/js/view3d-camera.js:195-209 | for any points, the result is their outline: a strictly convex counter-clockwise polygon of input points with every input inside, or the two extremes of points on one line |
| ConvexOutline.OutlineIsConvexHull | apps/desktop-ui/js/view3d-camera.js:190-209 | the same of the function, that the polygon goes round once with no corner repeated, and that points all on one spot give that point once for one input and twice for more |
| ConvexOutline.ChainHolds | apps/desktop-ui/js/view3d-camera.js:197-205 | after every point in either direction the chain starts and ends with the first and last point, always turns strictly left and leaves every point taken in on its left |
| ConvexOutline.SortedOrderIsUnique | apps/desktop-ui/js/view3d-camera.js:196 | two sorted lists of the same points are equal, so the sorting algorithm does not matter |
| ShiftLimit.NearestOnSegmentIsNearest | apps/desktop-ui/js/view3d-camera.js:212-218 | the result is on the segment, and no point of the segment is nearer |
| ShiftLimit.MoveOverModel | apps/desktop-ui/js/view3d-camera.js:231-246 | the loop over the edges gives, for a convex outline, the point of the region nearest the shift |
| ShiftLimit.OverModelIsNearest | apps/desktop-ui/js/view3d-camera.js:220-246 | for any polygon, segment or point the result is in the region, and no point of the region is nearer to the shift |
| ShiftLimit.OverModelKeepsInside | apps/desktop-ui/js/view3d-camera.js:231-234 | the shift is unchanged exactly when it is in the region, and keeping it there twice is keeping it once |
| ShiftLimit.NearestIsUnique | apps/desktop-ui/js/view3d-camera.js:235-246 | the nearest point is unique, so ties between edges do not matter |
| ShiftLimit.NeverJumps | apps/desktop-ui/js/view3d-camera.js:224-230 | two shifts kept over one outline are no farther apart than they were |
| Mixtures.RegionIsMixtures | apps/desktop-ui/js/view3d-camera.js:224-226 | any convex set that has the corners of a convex outline has its whole region |
| BoxOutline.FindOutlineOf | apps/desktop-ui/js/view3d-camera.js:175-187 | the three nested loops push the eight corners, and the result is the outline of these |
| BoxOutline.FrameSplits | apps/desktop-ui/js/view3d-camera.js:156-165 | the camera's three directions split every point exactly and keep its length |
| BoxOutline.FrameJoins | apps/desktop-ui/js/view3d-camera.js:156-165 | a place given in the three directions has exactly those coordinates, so the directions are orthonormal |
| BoxOutline.OutlineIsPictureOfBox | apps/desktop-ui/js/view3d-camera.js:168-187 | the outline of the eight corners holds exactly the points seen of the whole box |
| SixCorners.OutlineHasSixCorners | apps/desktop-ui/js/view3d-camera.js:168-172 | the outline of a box has at most six corners, however the camera faces |
| BoxOutline.MiddleShowsBox | apps/desktop-ui/js/view3d-camera.js:220-230 | the line through the middle of the view meets the box exactly when the shift is inside the outline |
| Camera.WrapAngleWraps | apps/desktop-ui/js/view3d-camera.js:80-83 | the result is above -pi and at most pi, whole turns away, and the angle itself when it was there already |
| Camera.WrapIsPeriodic | apps/desktop-ui/js/view3d-camera.js:80-83 | whole turns added to an angle do not change the result |
| Camera.FrameHoldsModel | apps/desktop-ui/js/view3d-camera.js:97-115 | for any box, even a broken one, the radius covers the box, the camera is outside the sphere and the near and far limits are outside it too |
| CameraPose.FrameIsBox | apps/desktop-ui/js/view3d-camera.js:97-115 | the centre and box are those given; a broken centre is the origin and a broken size none |
| CameraPose.RadiusIsLeast | apps/desktop-ui/js/view3d-camera.js:97-103 | the radius is half the diagonal of the box, or one of the two least sizes |
| FittingView.FittingViewShowsSphere | apps/desktop-ui/js/view3d-camera.js:117-131 | for any aspect and angles, the starting view shows all of the model's sphere from top to bottom, and from side to side exactly when it is wide enough |
| FittingView.FittingViewShowsModel | apps/desktop-ui/js/view3d-camera.js:117-131 | so every point of the box is in the starting view, as the camera sees it |
| FittingView.LeastZoomIsWideEnough | apps/desktop-ui/js/view3d-camera.js:117-122 | a view whose width for its height is at least the least zoom is wide enough |
| Camera.SettledIsInLimits | apps/desktop-ui/js/view3d-camera.js:140-149 | whatever is given, finite or not, angles and zoom end inside their limits and the shift over the model |
| Camera.SettledKeepsValid | apps/desktop-ui/js/view3d-camera.js:133-149 | a view within its limits is not changed, so settling twice is settling once |
| Camera.StepStaysInLimits | apps/desktop-ui/js/view3d-camera.js:259-298 | each turn, pan or zoom with any inputs keeps the view within its limits |
| Camera.ModelStaysDrawn | apps/desktop-ui/js/view3d-camera.js:325-331 | in any view every point of the box is strictly between the near and far limits in front of the camera |
| Camera.OverModelShowsIt | apps/desktop-ui/js/view3d-camera.js:325-331 | in a view within its limits the line from the pose through the middle of the view meets the box |
| Camera.EveryViewShowsModel | apps/desktop-ui/js/view3d-camera.js:24-44 | from the standard view, after any sequence of turns, pans and zooms with any inputs: within limits, settled, the model in the middle and nothing cut off |
| Camera.ZoomKeepsPointer | apps/desktop-ui/js/view3d-camera.js:282-298 | the place under the pointer stays under it exactly when the shift asked for is over the model |
| Camera.PanFollowsPointer | apps/desktop-ui/js/view3d-camera.js:269-273 | the model follows the pointer exactly when the shift asked for is over the model, and nothing but the shift changes |
| Camera.TurnKeepsCentre | apps/desktop-ui/js/view3d-camera.js:253-262 | a turn changes the angles as asked, and the centre stays on screen exactly when the shift is inside the outline at those angles |
| Camera.TurnsBack | apps/desktop-ui/js/view3d-camera.js:259-262 | turning and turning back gives the azimuth back, and the view when no limit was met |
| CameraPose.FrontView | apps/desktop-ui/js/view3d-camera.js:156-165 | at azimuth 0 and elevation 0 the camera is its distance in front of the model, and the shift moves it along x and y |
| CameraPose.StandsAt | apps/desktop-ui/js/view3d-camera.js:325-331 | the camera stands at the azimuth to the right of the front around the vertical, and at the height of the elevation |
| CameraPose.TurnGoesRound | apps/desktop-ui/js/view3d-camera.js:253-262 | a turn takes the camera around the vertical by the angle asked, and to the height of the elevation asked within its limits |
| CameraPose.PointerSeesPlace | apps/desktop-ui/js/view3d-camera.js:276-298 | the place under the pointer is where the line from the camera through the pointer meets the plane through the centre |
| CameraPose.ZoomScales | apps/desktop-ui/js/view3d-camera.js:275-298 | a zoom divides what the view shows by its factor exactly, or stops at the limit it would pass |
| CameraPose.ZoomsJoin | apps/desktop-ui/js/view3d-camera.js:275-298 | zooming twice reaches the zoom of both factors at once, while no limit is met |
| CameraPose.PanScales | apps/desktop-ui/js/view3d-camera.js:264-273 | the drag is to the height of the view as the shift asked for is to the height shown; a drag right moves the shift left, and one down moves it up |
| PartRows.SectionRows | apps/desktop-ui/src/part_list.rs:228-258 | one row per part: the first row of each key of the loaded parts and then the first matches, in order; and exactly when the section ends with Show all, its limit, loading or an error |
| PartRows.FirstOfEachKeepsFirsts | apps/desktop-ui/src/part_list.rs:244-246 | the rows kept are exactly those that are the first of their key, in order, and no two have one key |
| PartList.LimitedListIsASearch | apps/desktop-ui/src/part_list.rs:52-61 | a list limited to a reference counts as a search |
| PartList.KeysTellSearchesApart | apps/desktop-ui/src/part_list.rs:63-73 | two lists share the key of loaded parts exactly when words, reference, team, grouping and catalog position are the same, while no separator is typed |
| PartList.SeparatorMixesUp | apps/desktop-ui/src/part_list.rs:52-61 | with the separator typed, a search has the key of a list limited to a reference |
| PartList.OpenSections.Set | apps/desktop-ui/src/part_list.rs:102-117 | the new state, and that the section is then open or closed as asked |
| PartList.OpenSections.Toggle | apps/desktop-ui/src/part_list.rs:119-122 | the section is open after exactly when it was not before |
| PartList.OpenSections.Reveal | apps/desktop-ui/src/part_list.rs:126-131 | the section is open in this search and once it is cleared |
| PartList.SetChangesOne | apps/desktop-ui/src/part_list.rs:88-117 | opening or closing a section leaves the others in the same search, and another search starts with every section open |
| PartList.ClearingGoesBack | apps/desktop-ui/src/part_list.rs:5-11 | after anything done during searches, clearing the search shows open what was open before and the sections of revealed parts, and nothing else |
| PartList.Reveals.Select | apps/desktop-ui/src/part_list.rs:146-148 | the new state |
| PartList.Reveals.Results | apps/desktop-ui/src/part_list.rs:154-181 | the new state and the section to open |
| PartList.SelectedPartIsOpened | apps/desktop-ui/src/part_list.rs:136-181 | a selected part waits through results of its search and of no search, and the first that hold it open its section |
| PartList.AnotherSearchForgets | apps/desktop-ui/src/part_list.rs:137-139 | once results of another search came first, no later results open the section, however many come |
| PartList.OpensOnlyWhenMoved | apps/desktop-ui/src/part_list.rs:150-181 | while one part stays selected its section opens once, and again only when the part is in another section |
| PartList.NextKeepsWhatIsShown | apps/desktop-ui/src/part_list.rs:317-355 | another search keeps nothing; the same search keeps the loaded parts of open sections, all marked reloading, with the selected part only in the section that holds it now |
| PartList.Loaded.StartLoad | apps/desktop-ui/src/part_list.rs:359-365 | the new state; the section counts as loading and loaded parts stay |
| PartList.Loaded.FinishLoad | apps/desktop-ui/src/part_list.rs:368-371 | the new state; the section has the answer and is not reloading |
| Search.SearchEffect.Ask | apps/desktop-ui/src/main.rs:276-291 | a new search gets the next number and a timer |
| Search.SearchEffect.TimerFires | apps/desktop-ui/src/main.rs:290-312 | the search asked for is sent exactly when it is the newest |
| Search.SearchEffect.AnswerComes | apps/desktop-ui/src/main.rs:312-320 | the newest search's answer is shown as it came, or its error, with its request and version; any other answer changes nothing shown |
| Search.SearchStepsHold | apps/desktop-ui/src/main.rs:276-325 | in each step the newest search stays waiting, sent or shown, and what is shown is no older than before |
| ListSystem.StartLoadHolds | apps/desktop-ui/src/part_list.rs:413-427 | marking a section as loading with its request keeps every waiting section asked for and every settled section current |
| ListSystem.FinishLoadHolds | apps/desktop-ui/src/part_list.rs:440-458 | so does taking in an answer under the current key |
| ListSystem.DroppedAnswerHolds | apps/desktop-ui/src/part_list.rs:440-442 | so does dropping an answer under another key |
| ListSystem.TakeAnswerHolds | apps/desktop-ui/src/part_list.rs:494-553 | so does taking in a new answer, with its new key and the sections loaded again |
| ListSystem.StepHolds | apps/desktop-ui/src/part_list.rs:413-553 | every step keeps the whole system sound, drawn open sections loading when they must included |
| ListSystem.EveryRunIsSound | apps/desktop-ui/src/part_list.rs:295-371 | in every state of every run a loaded section not marked reloading has parts asked for under the current search and team position, and a loading or reloading one has a request out under it |
| ListSystem.ShownNeverGoesBack | apps/desktop-ui/src/main.rs:276-325 | in every run what is shown never goes back to an older search |
| ListSystem.QuietShowsTheNewest | apps/desktop-ui/src/part_list.rs:687-695 | once no timer runs and nothing is out, the newest search is shown, nothing is loading or reloading, every loaded section is current and no open section lacks its parts |
| ListRuns.ShownIsWhatCame | apps/desktop-ui/src/part_list.rs:295-371 | in every state of every run: what is shown is an answer that came, to what was typed and chosen when it was asked; the parts of a section not marked reloading came for that section and the same search; a section loading or reloading has a request out for it |
| ListRuns.StepAsksForShown | apps/desktop-ui/src/part_list.rs:413-424 | every request for parts is for the answer shown, one section and the part selected now |
| ListRuns.SearchAsksForNoMore | apps/desktop-ui/src/part_list.rs:687-695 | the list of a search asks for more parts only when Show all is chosen or a new answer loads sections again that had parts |
| ListRuns.OpenSectionsAreLoaded | apps/desktop-ui/src/part_list.rs:687-695 | in every run without a search, every open section drawn has loaded parts, is loading them or says why not |
| ListRuns.PartsComeIn | apps/desktop-ui/src/part_list.rs:427-458 | parts that come for the search shown, or the error, show in their section and nowhere else; those that come late change no section |
| ListRuns.ToggledSectionFlips | apps/desktop-ui/src/part_list.rs:760-768 | a click on a section's header opens it when closed and closes it when open, and no other |
| ListRuns.ShownAllIsAskedFor | apps/desktop-ui/src/part_list.rs:740-750 | Show all has a request out for the section in the search shown, and is remembered; parts it has stay |
| ListRuns.ChosenPartIsOpened | apps/desktop-ui/src/part_list.rs:462-492 | a part chosen among the first matches has its section open at once |
| ListRuns.AnsweredPartIsOpened | apps/desktop-ui/src/part_list.rs:494-553 | an answer that says which section holds the waiting selected part opens it |
| CadChoices.Draft.Sync | apps/desktop-ui/src/edit_cad.rs:123-183 | the field values, files and missing library written for the rows |
| CadChoices.Collect | apps/desktop-ui/src/edit_cad.rs:126-158 | the loop that counts the choices sends each copy with the number of choices before its row |
| RowFiles.StretchForEachRow | apps/desktop-ui/src/edit_cad.rs:133-157 | the files sent are, row by row, the file chosen marked with the choice it replaces, the models copied with it unless left out, and those chosen for it; a row without a file sends none |
| RowFiles.RowsReplaceTheirOwnExactly | apps/desktop-ui/src/edit_cad.rs:204-236 | opened on a field as it was, each row replaces the choice it shows exactly when no blank choice comes before one that is not |
| RowFiles.FileGoesToItsRow | apps/desktop-ui/src/edit_cad.rs:281-301 | among the same rows a copy goes back to the row that sent it, unless that is blank; any other file to the first row |
| RowFiles.RowSaysName | apps/desktop-ui/src/edit_cad.rs:62-79 | a row says the library, a colon and the symbol's or footprint's name, or the bare name without a library |
| RowFiles.ChosenCopyIsSavedAs | apps/desktop-ui/src/edit_cad.rs:126-301 | from library and name of the file chosen: with no semicolon, the copy is saved as `LIBRARY:NAME`, trimmed, exactly when no white space ends its name, else refused |
| RowFiles.FirstWithoutLibraryIsSaid | apps/desktop-ui/src/edit_cad.rs:136-142 | a library is asked for exactly when some file has none, and of the first such file |
| CadChoices.Rows.ChooseFile | apps/desktop-ui/src/edit_cad.rs:106-112 | the first row with the key changes to the file and its reference, and no other row changes |
| CadChoices.FieldReadsBackExactly | apps/desktop-ui/src/edit_cad.rs:168-177 | the field reads back as the rows' trimmed references in order exactly when none holds a semicolon |
| CadChoices.NumbersPointAtOwnExactly | apps/desktop-ui/src/edit_cad.rs:127-152 | every choice's number points at the choice itself, once the field is read again, exactly when no choice holds a semicolon; a blank row's never does |
| CadChoices.SemicolonMisleads | apps/desktop-ui/src/edit_cad.rs:168-177 | with a semicolon in a picked item's name, the copy sent for the next row is saved as the wrong choice or refused, and goes back to the wrong row |
| CadChoices.CopyArrivesExactly | apps/desktop-ui/src/edit_cad.rs:126-301 | the copy a row sends is among the files, goes back to the row of its own choice when the form is opened again, and is saved as that choice if it names it, exactly when its number points at it |
| CadChoices.CopiesArrive | apps/desktop-ui/src/edit_cad.rs:126-301 | when no choice holds a semicolon, every copy is sent, goes back to its own row, and is saved as its choice, trimmed, or refused when that does not name it |
| CadChoices.TrimmedChoiceNames | crates/catalog-browser/src/add_part.rs:858-868 | a choice `LIBRARY:NAME`, sent trimmed, names the copied footprint exactly when no white space ends its name |
| CadChoices.SaveFootprints | apps/desktop-ui/src/add_part.rs:973-1062 | saving stops exactly when a file has no library; else the loop sends each copy with the number of choices before it, and joins the choices that are not empty |
| CadChoices.NewPartReadsBackExactly | apps/desktop-ui/src/add_part.rs:1020-1062 | the field reads back, and each number points at its own choice, exactly when no choice written is only blanks or holds a semicolon |
| CadChoices.FirstCopyArrivesExactly | apps/desktop-ui/src/add_part.rs:1002-1024 | the copy of the first choice is saved as that choice exactly when number 0 points at it and it names it |
| CadChoices.ExtraCopyArrivesExactly | apps/desktop-ui/src/add_part.rs:1025-1042 | the same for the copy of each further choice and its number |
| NewPartSaves.StretchForEachChoice | apps/desktop-ui/src/add_part.rs:974-1042 | the files are, choice by choice, none for a footprint known or used by reference, a copy marked with its models unless left out, or a downloaded file with the model chosen; saving is stopped exactly when a file or a copy lacks its library |
| NewPartSaves.ChoicesAreSaid | apps/desktop-ui/src/add_part.rs:1020-1062 | while no choice written is blank or holds a semicolon, the field says the first choice first and every further one after it |
| NewPartSaves.FirstCopyIsSavedAs | apps/desktop-ui/src/add_part.rs:1002-1024 | from library and name: the copy of the first choice is saved as `LIBRARY:NAME`, trimmed, exactly when no white space ends its name, else refused |
| NewPartSaves.ExtraCopyIsSavedAs | apps/desktop-ui/src/add_part.rs:1025-1042 | the same for a copy among the further choices |
| CopiedFootprints.CopyOutsideLinks | crates/catalog-browser/src/add_part.rs:906-955 | the loop over the outside links stops at the first that cannot be copied |
| CopiedFootprints.CopyLinksIs | crates/catalog-browser/src/add_part.rs:899-955 | it succeeds exactly when every link can be copied and no two go to one place; then exactly these links are rewritten, each place with one upload |
| CopiedFootprints.CopiedFootprintIsSavedWell | crates/catalog-browser/src/add_part.rs:880-970 | when saving succeeds, and that then no link is outside the library, nothing else changed, each place has one upload, the history has the file's source with what was changed, cut when too long, and with No 3D model there is only the footprint |
| PlainSaves.FootprintIsSavedAs | crates/catalog-browser/src/add_part.rs:880-970 | in terms of the library and the link alone: each outside link is written to where the library keeps a file of its model's name with `_` for each character Windows forbids, that model is uploaded there, and no other link or upload is made |
| PlainSaves.ModelsThatMeetStop | crates/catalog-browser/src/add_part.rs:941-948 | two outside links whose models go to one such place stop the save |
| CopiedFootprints.HistorySaysExactly | crates/catalog-browser/src/add_part.rs:957-965 | the history says how a changed footprint was changed exactly when its own source leaves room for it; of an unchanged one it has the source as it is |
| CopiedFootprints.SourceStaysExactly | crates/catalog-browser/src/add_part.rs:957-965 | the history gives a footprint the source of an unchanged one exactly when it is not changed or its own source looks cut already |
| CopiedFootprints.MadeSourceLooksCut | crates/catalog-browser/src/pick.rs:326-330 | the source made for a copy looks cut exactly when it was longer than 255 characters or ends as if it had been; then every change leaves it as it is |
| SurprisingSaves.CutSourceHidesChange | crates/catalog-browser/src/add_part.rs:957-965 | for every source that leaves no room, a save in which a link is left out and the history does not say so; a cut source stays as it is |
| CopiedFootprints.FileNamesMeetExactly | crates/catalog-browser/src/add_part.rs:711-724 | two file names become one exactly when they differ only in characters that become `_` |
| CopiedFootprints.CopyFootprints | crates/catalog-browser/src/add_part.rs:843-878 | it succeeds exactly when every copied footprint can be sent; then the uploads of all, in order, with one for each place |
| CopiedFootprints.UploadIsSavedExactly | crates/catalog-browser/src/add_part.rs:868-876 | an upload is among them exactly when the first file that sends anything to its place, a reference for a footprint, sends it; no place has two and none is left out |
| PlainSaves.SavedInOrder | crates/catalog-browser/src/add_part.rs:868-876 | the uploads kept are, in the order they were sent, exactly those that are the first for their role and reference |
| PlainSaves.SavedSaysWhereFrom | crates/catalog-browser/src/add_part.rs:880-886 | every upload kept says the installed library and path of one of the files; a file that was not copied sends nothing |
| CopiedFootprints.LinkLeadsToOwnExactly | crates/catalog-browser/src/add_part.rs:847-877 | a footprint's text is saved with a link to its own model's place, and that model too, exactly when the first files that send to the footprint's reference and to the model's place send the same |
| CopiedFootprints.AllAreSavedExactly | crates/catalog-browser/src/add_part.rs:868-876 | everything that is sent is saved exactly when no two files send different uploads to one place |
| CopiedFootprints.AllLinksLeadToOwnExactly | crates/catalog-browser/src/add_part.rs:847-877 | every copied footprint is saved and every link leads to its own model exactly when no two files send different footprints for one reference or different models to one place |
| RowsToSave.RowsLinkLeadsToItsModelExactly | apps/desktop-ui/src/edit_cad.rs:126-158 | from the form's rows to the saved part: the link of a copied row leads to the model copied with the row exactly when no file before it brings another for that link and the first files for the place and the reference send the same |
| SurprisingSaves.LaterModelIsLost | crates/catalog-browser/src/add_part.rs:868-876 | a save of two footprints with different models of one file name, in which the second's link leads to the first's model |
| SurprisingSaves.LaterFootprintIsLost | crates/catalog-browser/src/add_part.rs:868-876 | a save of two footprints of one name, in which both models are saved but the second footprint and its link are not |
| AsOf.CivilIsTheCalendar | apps/desktop-ui/src/as_of.rs:144-159 | for every day the formulas give the date counted day by day, the next day's date is the next date, and day 0 is 1970-01-01 |
| AsOf.DateHasOneNumber | apps/desktop-ui/src/as_of.rs:144-159 | every date of the calendar is found from its number |
| AsOf.SameDayExactly | apps/desktop-ui/src/as_of.rs:111-142 | two times show one date exactly when they share a day number |
| AsOf.WordsSayTheDay | apps/desktop-ui/src/as_of.rs:62-83 | yesterday is said exactly for the day before, no day exactly for today or a time ahead, and the year exactly when it is another |
| AsOf.WordsHaveTheTime | apps/desktop-ui/src/as_of.rs:62-83 | whatever is said, hour and minute are the time's own, and a day said in full is its date |
| AsOf.WordsTellTheMinute | apps/desktop-ui/src/as_of.rs:62-83 | seen at one moment, two earlier times have the same words exactly when they are in the same minute |
| Base64.Encode | apps/desktop-ui/src/team.rs:1082-1100 | the loops give text that decodes to the bytes |
| Base64.DecodesBack | apps/desktop-ui/src/team.rs:1081-1100 | decoding inverts encoding on every byte sequence |
| Base64.EncodesBack | apps/desktop-ui/src/team.rs:1081-1100 | any text that decodes is what its bytes encode to |
| Base64.LengthAndPadding | crates/catalog-browser/src/add_part.rs:452-458 | the length is what a save reserves for bytes that are not text, and only the end is padded, by the bytes left over |
| CssString.Quote | apps/desktop-ui/src/list_focus.rs:328-344 | the loop gives a string that reads back as the text exactly when the text has no U+0000 |
| CssString.TextStaysExactly | apps/desktop-ui/src/list_focus.rs:327-344 | a text stands between the quotes as it is exactly when it has no quote, backslash or control character, and a control character never stands there |
| CssString.ReadsBack | apps/desktop-ui/src/list_focus.rs:327-344 | reading takes the whole string and gives the text, with U+FFFD for each U+0000 |
| Names.FileNamesDiffer | crates/catalog-browser/src/file_safe.rs:4-18 | two texts share a name only when equal, even where capitals do not count; a name holds small letters, digits and `.-_` only |
| Names.FileSafeStaysExactly | crates/catalog-browser/src/file_safe.rs:4-18 | a text is its own file name exactly when it has only small letters, digits, `.` and `-`; any other is shorter than its name |
| Names.FileSafeReadsBack | crates/catalog-browser/src/file_safe.rs:8-18 | the escapes read back as the text |
| Names.IdsDiffer | apps/desktop-ui/src/teams.rs:597-610 | two addresses share an ID only when equal; an ID holds letters, digits and `_` only |
| Names.IdPartStaysExactly | apps/desktop-ui/src/teams.rs:597-610 | a text is its own ID part exactly when it has only letters and digits |
| Names.IdPartReadsBack | apps/desktop-ui/src/teams.rs:600-610 | the escapes read back as the address |
| SplitOut.Next | apps/desktop-ui/src/teams.rs:577-581 | the earliest address found, and the longest of those at its place |
| SplitOut.MatchesAtExactly | apps/desktop-ui/src/teams.rs:577-581 | an address is found at a place exactly when the text is what is before, the address and what is after |
| SplitOut.Split | apps/desktop-ui/src/teams.rs:570-595 | the loop terminates with parts that join to the text: each address the longest at its place, none starting in another part, no two of these adjacent |
| SplitOut.PartsAre | apps/desktop-ui/src/teams.rs:570-595 | what that means part by part |
| SplitOut.SplitIsUnique | apps/desktop-ui/src/teams.rs:570-572 | there is only one such split |
| ListFocus.FocusGoesToNeighbour | apps/desktop-ui/src/list_focus.rs:121-151 | focus stays on a listed item, else goes to the nearest one after it still listed, else before it, else to the first; nowhere when the list is empty |
| ListFocus.Focus.Check | apps/desktop-ui/src/list_focus.rs:249-282 | the new state; only what is remembered changes |
| ListFocus.Focus.SectionsShown | apps/desktop-ui/src/list_focus.rs:229-233 | the new state; a focus that was drawn is drawn |
| ListFocus.Focus.SectionDrawn | apps/desktop-ui/src/list_focus.rs:236-244 | the new state; a focus that was drawn is drawn |
| ListFocus.FocusStaysDrawn | apps/desktop-ui/src/list_focus.rs:76-119 | a change leaves focus on something drawn, and where it was while that is drawn |
| ListFocus.RememberedIsDrawn | apps/desktop-ui/src/list_focus.rs:207-276 | in every run in which only drawn items take focus, what is remembered is drawn |
| ListFocus.TakenStays | apps/desktop-ui/src/list_focus.rs:207-211 | an item that took focus keeps it as long as it stays drawn, whatever else the list draws |
| ListFocus.ForgottenStays | apps/desktop-ui/src/list_focus.rs:212-226 | after focus went elsewhere, no change of the list takes it back |
| ListFocus.RowGivesWay | apps/desktop-ui/src/list_focus.rs:69-75 | a row that left gives focus to its neighbour, the first row, Show all or the header |
| ListFocus.ShowAllGivesWay | apps/desktop-ui/src/list_focus.rs:73-75 | Show all that left gives focus to the last row, which is a new one when rows were added, or the header |
| ListFocus.SectionGivesWay | apps/desktop-ui/src/list_focus.rs:74-93 | a section that left gives focus to the header of its neighbour, of the first section when none of the earlier ones is left, or to the search box when there is none |
| ListFocus.OthersDoNotMoveFocus | apps/desktop-ui/src/list_focus.rs:236-263 | what another section draws does not move focus |
| RetrySlot.Slot.Open | apps/desktop-ui/src/team.rs:130-133 | the new state |
| RetrySlot.Slot.IdFor | apps/desktop-ui/src/team.rs:138-154 | the ID and the new state |
| RetrySlot.SaveEdit | apps/desktop-ui/src/team.rs:418-438 | nothing is sent without a library or a reason; else the request goes out with the ID asked for without its own |
| RetrySlot.SaveArchive | apps/desktop-ui/src/team.rs:1530-1552 | the same for archiving, with its own slot |
| RetrySlot.SameIdExactlyForResends | apps/desktop-ui/src/team.rs:98-154 | over any run of several slots, two saves have one ID exactly when they are of one slot, everything it saved from one to the other is the same and its form did not open |
| RetrySlot.EffectsAreOwn | apps/desktop-ui/src/team.rs:98-107 | with a server that keeps one effect per ID, whatever arrives from any slot and however often, each ID has one effect, for what was saved with it |
| RetrySlot.AnswerIsOwn | apps/desktop-ui/src/team.rs:98-107 | the answer for a save that arrived is for the same request, from the same slot |

## Left out

- Views, DOM focus and scrolling, pointer and key handling, three.js rendering and its clean-up.
- Backend calls, the credential store, the ODBC check, build scripts and reading files.
- Floating-point rounding and overflow, and the exponential of the wheel's zoom factor: zoom factors are any positive reals.
- ListSystem.TakeAnswerHolds: the list taking in a new answer is one atomic step, and so is each other event with what the drawn sections then do; the order in which the framework runs effects inside one event is not modelled.
- ListSystem.EveryRunIsSound: where the list scrolls, and where focus goes after Show all, are not modelled.
- PartRows.SectionRows: a part's manufacturer and value are not modelled; its team and IPN name it.
- RetrySlot.SaveArchive: the notice shown when the reason is blank is not modelled.
- CadChoices.CopyArrivesExactly: reading the file again, and choosing its library item again, are backend calls; only the row they are for is modelled.
- CadChoices.Rows.ChooseFile: stands for every change of one row by its key; choosing an item of a library changes a row the same way.
- CadChoices.SaveFootprints: the symbol, and what else stops a new part from being saved, are not modelled.
- CopiedFootprints.CopiedFootprintIsSavedWell: error texts are shortened.
- CopiedFootprints.CopyFootprints: which error is shown, when several footprints cannot be saved, is not stated.
- SplitOut.Next: an address's length is counted in characters, not bytes; of two addresses found at one place one starts with the other, so this orders them the same way.
- AsOf.WordsHaveTheTime: the words are numbers here; padding the clock with zeros and the names of the months are not modelled.
- AsOf.SameDayExactly: times in the web view's own time zone come from the browser; the UTC form of the program is modelled.
- The words that functions such as `count_text` and `moved_note` choose, which read branch by branch.
- The limits of the drawing, the ranking of search results, and the 2D viewer.
