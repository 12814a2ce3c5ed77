# web-comics: a Dafny model of the reader, the tag picker and the admin forms

This project models the logic at the centre of a manga-reading web application
(an Angular front end over a Firestore database) and proves properties of that
model in Dafny.

- **Chapter reader** (`Viewer`). A current page index over a chapter's page list.
  Next, previous and go-to requests move it, each behind a bounds guard. Two
  getters give the page count and the current image URL, with a fallback
  instead of an error. The application's reader only navigates: it has no zoom,
  pan or pinch code, so none is modelled.
- **Reader host** (`Detail`). The manga page opens the reader only on a chapter
  that has a page, and closes it by clearing the selection.
- **Tag picker** (`Selector`).
  - One selection record per known tag.
  - A search filter over the records.
  - A view sorted with selected tags first and by name within each group.
  - Toggling and removing a selection.
  - The diff of selected ids that drives the tags' usage counters.
- **Tag service** (`Tags`).
  - A get-or-insert cache of per-tag streams that every write clears.
  - The records that creating and updating a tag write.
  - The batch of +1 / -1 usage increments.
- **Tag form** (`TagForm`). Name validation, the choice between update and
  create, reset after a successful save, the edit transition, and the
  confirmation guard on delete.
- **Manga form** (`HomePage`).
  - The default form.
  - Genres read from, and written to, a comma-separated text field.
  - The choice between update and insert.
  - The edit transition.
  - Adding and removing chapters.
- **Manga service** (`Mangas`). The normalisation that gives every chapter a
  page list and a date.

The entities of `src/app/models` are datatypes in `Models`. The JavaScript
string operations the components use are functions in `Text`:

- `trim` strips the ECMAScript white-space set.
- `toLowerCase` is ASCII lowering.
- `includes` is substring search.
- `split` and `join` work with a one-character separator.
- `localeCompare` is read as code-point lexicographic order, and the model proves
  that order total, transitive and antisymmetric.

The components that mutate fields are Dafny classes. Their methods state the
whole new state. The pure parts are functions with lemmas about them.

How the environment is represented:

- **Database writes.** A database write that may fail is an `Outcome` parameter
  (`Done` or `Rejected`), and every write that goes through is appended to a
  ghost effect log.
- **Streams.** An `Observable` the tag service hands out is a `Stream` value
  with a serial number, so "the same stream" and "a new stream" can be stated.
- **Clock and ids.** The clock is a `now` parameter, and the id the database
  gives a new tag is a `newId` parameter.
- **The confirmation dialog.** Its answer is a `confirmed` parameter.

Four points where the code behaves differently from what its names suggest:

- The reader has no zoom or pan.
- `removerCapitulo` passes its index to `splice`, so a negative index removes a
  chapter counted from the end, not nothing (`HomePage.Spliced`).
- `salvarTag` tests `editingId` for truthiness, so an empty id creates a new tag.
  `registrarManga` tests `editingId !== undefined` instead.
- The reader does not reset its page index when it is handed another chapter, and
  the manga page does not close the reader before selecting another chapter. An
  index past the end of the new chapter shows no image and "next" does nothing
  (`Viewer.StaleIndex`).

## Model

| member | source | states |
|---|---|---|
| `Viewer.PageCount` | src/app/components/manga-viewer/manga-viewer.component.ts:46-48 | the number of pages is the list's length, or 0 without a page list |
| `Viewer.PageUrl` | src/app/components/manga-viewer/manga-viewer.component.ts:50-56 | the image URL of the page at the index when that page exists, `""` otherwise; defined for every index |
| `Viewer.Step` | src/app/components/manga-viewer/manga-viewer.component.ts:25-44 | next moves up by one only below the last page of an existing list; previous moves down by one only above 0; go-to jumps only to an index inside an existing list; a non-negative index stays non-negative and an in-range index stays in range |
| `Viewer.Run` | src/app/components/manga-viewer/manga-viewer.component.ts:25-44 | a sequence of requests taken in order; no request leaves the index unchanged, and a non-negative index stays non-negative |
| `Viewer.RunKeepsInRange` | src/app/components/manga-viewer/manga-viewer.component.ts:14-44 | every sequence of navigation requests keeps the index in range |
| `Viewer.ReadingStaysOnAPage` | src/app/components/manga-viewer/manga-viewer.component.ts:14-56 | from page 0 of a chapter with pages, any sequence of requests leaves the index on an existing page, whose image is the URL shown |
| `Viewer.StaleIndex` | src/app/components/manga-viewer/manga-viewer.component.ts:25-56 | an index at or past the end of the chapter shows `""`, is not moved by next, and is moved down by one by previous |
| `Viewer.StaleIndexExample` | src/app/components/manga-viewer/manga-viewer.component.ts:13-56 | page 3 is a page of a five-page chapter but not of a two-page one, where it shows `""` and next leaves it at 3 |
| `Viewer.MangaViewer.constructor` | src/app/components/manga-viewer/manga-viewer.component.ts:13-14 | the reader starts at page 0 of the given chapter, which is a page of it when the chapter has one |
| `Viewer.MangaViewer.SetCapitulo` | src/app/components/manga-viewer/manga-viewer.component.ts:13-14 | a new input chapter replaces the old one and the page index is kept as it was |
| `Viewer.MangaViewer.NextPage` | src/app/components/manga-viewer/manga-viewer.component.ts:25-30 | increments the index exactly when a page list exists and the index is below its last page, otherwise changes nothing; an index on a page stays on a page; the chapter is untouched |
| `Viewer.MangaViewer.PreviousPage` | src/app/components/manga-viewer/manga-viewer.component.ts:32-37 | decrements only above 0, so the index never becomes negative; an index on a page stays on a page; the chapter is untouched |
| `Viewer.MangaViewer.GoToPage` | src/app/components/manga-viewer/manga-viewer.component.ts:39-44 | sets the index to `index` exactly when a page list exists and `0 <= index < length`, otherwise changes nothing; an index on a page stays on a page |
| `Viewer.MangaViewer.TotalPages` | src/app/components/manga-viewer/manga-viewer.component.ts:46-48 | the page list's length, or 0 when there is none |
| `Viewer.MangaViewer.CurrentPageUrl` | src/app/components/manga-viewer/manga-viewer.component.ts:50-56 | total; the current page's image when the index is inside the chapter, `""` otherwise, so always an image when the index is on a page of a non-empty chapter |
| `Detail.MangaDetail.constructor` | src/app/pages/manga-detail/manga-detail.component.ts:21-22 | nothing selected, reader closed |
| `Detail.MangaDetail.VisualizarCapitulo` | src/app/pages/manga-detail/manga-detail.component.ts:33-41 | a chapter without pages changes nothing; a chapter with a page becomes the selection and opens the reader; "open iff selected" is kept |
| `Detail.MangaDetail.FecharVisualizacao` | src/app/pages/manga-detail/manga-detail.component.ts:43-47 | clears the selection and closes the reader |
| `Detail.MangaDetail.FirstPageShown` | src/app/pages/manga-detail/manga-detail.component.ts:35-40 | whenever the reader is open, page 0 of the selected chapter exists, and a reader at page 0 shows its image rather than the fallback |
| `Text.Trim` | src/app/components/tag-manager/tag-manager.component.ts:30 | the result has no white space at either end; it is empty exactly when the input is all white space; an input without surrounding white space is returned unchanged |
| `Text.TrimOccurs` | src/app/components/tag-manager/tag-manager.component.ts:30 | the trimmed string occurs in the input, starting after the leading white space |
| `Text.TrimDropsOnlySpace` | src/app/components/tag-manager/tag-manager.component.ts:30 | every character before or after the trimmed piece is white space; with `TrimOccurs` and `Trim`, the result is exactly the input with its leading and trailing white space removed |
| `Text.TrimKeepsOut` | src/app/pages/home/home.component.ts:64 | trimming brings in no character the input lacks |
| `Text.TrimLeadingSpace` | src/app/pages/home/home.component.ts:64 | one more leading space does not change the trimmed string |
| `Text.Lower` | src/app/components/tag-selector/tag-selector.component.ts:56-59 | the same length; no ASCII capital remains; every character that is not an ASCII capital is kept |
| `Text.LowerCapitals` | src/app/components/tag-selector/tag-selector.component.ts:56-59 | every ASCII capital becomes its lower-case letter, 32 code points above |
| `Text.Contains` | src/app/components/tag-selector/tag-selector.component.ts:58-59 | a term is contained only in a string at least as long; the empty term is contained in every string |
| `Text.ContainsIsOccurrence` | src/app/components/tag-selector/tag-selector.component.ts:58-59 | `includes` holds exactly when the term occurs at some offset |
| `Text.Split` | src/app/pages/home/home.component.ts:64 | there is one more piece than there are separators, and no piece contains the separator |
| `Text.JoinShape` | src/app/pages/home/home.component.ts:106 | `join` of nothing is empty; a join starts with its first part, then the separator when more parts follow; its length is the parts' lengths plus one separator between each two |
| `Text.JoinSplit` | src/app/pages/home/home.component.ts:64 | joining the pieces of a split with the separator gives the string back |
| `Text.SplitJoinPadded` | src/app/pages/home/home.component.ts:64-106 | splitting a join whose separator is the split character plus padding gives the first part, then every later part with the padding in front |
| `Text.NameLe` | src/app/components/tag-selector/tag-selector.component.ts:49 | a prefix comes first; a non-empty name comes only before a non-empty name whose first character is not smaller |
| `Text.NameLeTotal` | src/app/components/tag-selector/tag-selector.component.ts:49 | any two names are comparable |
| `Text.NameLeTransitive` | src/app/components/tag-selector/tag-selector.component.ts:49 | the name order is transitive |
| `Text.NameLeAntisymmetric` | src/app/components/tag-selector/tag-selector.component.ts:49 | names ordered both ways are equal |
| `Selector.InitialSelections` | src/app/components/tag-selector/tag-selector.component.ts:37-42 | one record per tag, same order, selected exactly when the tag's id is among the selected ids |
| `Selector.Before` | src/app/components/tag-selector/tag-selector.component.ts:47-52 | a selected record comes before an unselected one and never after it; records with the same flag and name may come in either order |
| `Selector.BeforeTotal` | src/app/components/tag-selector/tag-selector.component.ts:47-52 | the sort comparator relates any two records |
| `Selector.BeforeTransitive` | src/app/components/tag-selector/tag-selector.component.ts:47-52 | the sort comparator is transitive |
| `Selector.Insert` | src/app/components/tag-selector/tag-selector.component.ts:47-52 | inserting a position adds exactly that position to the view |
| `Selector.SortPositions` | src/app/components/tag-selector/tag-selector.component.ts:47 | the sorted view holds the same positions, with the same multiplicities |
| `Selector.AllAfterInsert` | src/app/components/tag-selector/tag-selector.component.ts:47-52 | a record that may precede every record of a view and the inserted one may precede every record of the view after the insertion |
| `Selector.InsertSorted` | src/app/components/tag-selector/tag-selector.component.ts:47-52 | inserting into a sorted view keeps it sorted |
| `Selector.SortPositionsSorted` | src/app/components/tag-selector/tag-selector.component.ts:46-53 | the sorted view is a permutation of its input and is in comparator order |
| `Selector.SortedMeaning` | src/app/components/tag-selector/tag-selector.component.ts:48-51 | in a sorted view every selected record precedes every unselected one, and records with the same flag are in name order |
| `Selector.SearchTerm` | src/app/components/tag-selector/tag-selector.component.ts:56 | the term has no white space at either end and no ASCII capital; it is empty exactly when the search text is all white space |
| `Selector.Matches` | src/app/components/tag-selector/tag-selector.component.ts:57-60 | the empty term matches every tag; a matching term is no longer than the name or the present description |
| `Selector.Matching` | src/app/components/tag-selector/tag-selector.component.ts:57-60 | the kept positions are positions of the records, below the bound |
| `Selector.MatchingMeaning` | src/app/components/tag-selector/tag-selector.component.ts:57-60 | a position is kept exactly when its tag's lower-cased name, or its present lower-cased description, contains the term; kept positions are in increasing order |
| `Selector.SortKeepsMembers` | src/app/components/tag-selector/tag-selector.component.ts:47 | a position is in the sorted view exactly when it is in the view before sorting |
| `Selector.SearchViewMembers` | src/app/components/tag-selector/tag-selector.component.ts:55-62 | the sorted search view holds exactly the positions of the records that match the term |
| `Selector.AllPositions` | src/app/components/tag-selector/tag-selector.component.ts:42 | the copy of all records: every position once, in order |
| `Selector.BlankSearchKeepsAll` | src/app/components/tag-selector/tag-selector.component.ts:55-60 | a blank search text keeps every record in order |
| `Selector.SelectedTags` | src/app/components/tag-selector/tag-selector.component.ts:100-104 | at most one tag per record (which tags: `SelectedTagsMeaning`) |
| `Selector.SelectedTagsMeaning` | src/app/components/tag-selector/tag-selector.component.ts:100-104 | a tag is returned exactly when it is the tag of a selected record |
| `Selector.SelectedTagsAppend` | src/app/components/tag-selector/tag-selector.component.ts:100-104 | selected tags come in record order |
| `Selector.SelectedIds` | src/app/components/tag-selector/tag-selector.component.ts:81-83 | at most one id per record (which ids: `SelectedIdsMeaning`) |
| `Selector.SelectedIdsMeaning` | src/app/components/tag-selector/tag-selector.component.ts:81-83 | an id is returned exactly when it is the id of a selected record |
| `Selector.SelectedIdsAreTagIds` | src/app/components/tag-selector/tag-selector.component.ts:81-87 | the emitted ids are the ids of the emitted tags, position by position |
| `Selector.IdsOfAppend` | src/app/components/tag-selector/tag-selector.component.ts:83 | the ids of two runs of tags are the ids of the first followed by those of the second |
| `Selector.Without` | src/app/components/tag-selector/tag-selector.component.ts:90-91 | an id is kept exactly when it is in the first list and not in the second |
| `Selector.UsageDiffMeaning` | src/app/components/tag-selector/tag-selector.component.ts:90-93 | added and removed ids are disjoint, and both are empty exactly when old and new ids have the same members |
| `Selector.FindById` | src/app/components/tag-selector/tag-selector.component.ts:71 | the first record carrying the id, or none when no record carries it |
| `Selector.UpdateEvents` | src/app/components/tag-selector/tag-selector.component.ts:85-97 | two or three events: the new ids and tags are always emitted; a third, a usage update with the added and removed ids, exactly when one of them is non-empty |
| `Selector.SetFlagKeepsCoherent` | src/app/components/tag-selector/tag-selector.component.ts:65 | changing one record's flag keeps the records mirroring the tags, with ids, and the view pointing into them |
| `Selector.InitialCoherent` | src/app/components/tag-selector/tag-selector.component.ts:37-42 | records built from tags that all carry ids are coherent with the view of all positions |
| `Selector.TagSelector.constructor` | src/app/components/tag-selector/tag-selector.component.ts:15-22 | the given selected ids, no tags, no records, empty search |
| `Selector.TagSelector.ReceiveTags` | src/app/components/tag-selector/tag-selector.component.ts:30-35 | the received tags are stored and the records are built from them |
| `Selector.TagSelector.InitializeTagSelections` | src/app/components/tag-selector/tag-selector.component.ts:37-44 | records built from the tags; the view is a sorted permutation of all records |
| `Selector.TagSelector.SortTags` | src/app/components/tag-selector/tag-selector.component.ts:46-53 | the view becomes a sorted permutation of itself; nothing else changes |
| `Selector.TagSelector.OnSearch` | src/app/components/tag-selector/tag-selector.component.ts:55-62 | the view becomes the sorted view of the positions matching the lower-cased, trimmed search text; records, tags and text unchanged |
| `Selector.TagSelector.ToggleTag` | src/app/components/tag-selector/tag-selector.component.ts:64-68 | flips exactly the given record's flag, then updates the ids, emits, and re-sorts |
| `Selector.TagSelector.RemoveTag` | src/app/components/tag-selector/tag-selector.component.ts:70-77 | clears the flag of the first record with the tag's id and updates; if no record has it, nothing changes |
| `Selector.TagSelector.SetSelected` | src/app/components/tag-selector/tag-selector.component.ts:64-77 | sets exactly the given record's flag, makes the selected ids those of the selected records, emits `UpdateEvents`, and re-sorts the view |
| `Selector.TagSelector.UpdateSelectedTags` | src/app/components/tag-selector/tag-selector.component.ts:79-98 | the selected ids become those of the selected records in record order, and the events of `UpdateEvents` are emitted |
| `Selector.TagSelector.SelectedTagsNow` | src/app/components/tag-selector/tag-selector.component.ts:100-104 | the tags of the selected records |
| `Tags.NewTagRecord` | src/app/services/tag.service.ts:69-74 | the given fields, the creation time, and a usage count of 0 whatever count was supplied |
| `Tags.UpdateData` | src/app/services/tag.service.ts:86 | the changes with `dataCriacao` removed and every other field kept |
| `Tags.StageUsage` | src/app/services/tag.service.ts:97-108 | +1 for each added id, then -1 for each removed id, in order, one increment per id |
| `Tags.NetDeltaAppend` | src/app/services/tag.service.ts:97-110 | the effect of a batch on a counter is the sum of the effects of its parts |
| `Tags.NetDeltaOfStaged` | src/app/services/tag.service.ts:100-108 | a batch of one delta per id moves a counter by the delta times the id's occurrences |
| `Tags.UsageNetDelta` | src/app/services/tag.service.ts:97-112 | a counter moves by its occurrences among the added ids minus its occurrences among the removed ids |
| `Tags.TagService.constructor` | src/app/services/tag.service.ts:31-36 | an empty cache, one all-tags stream, no writes |
| `Tags.TagService.GetTags` | src/app/services/tag.service.ts:49-51 | the current all-tags stream, created before this call |
| `Tags.TagService.GetTagById` | src/app/services/tag.service.ts:53-67 | afterwards the id is cached; a cached id gets its stored stream and nothing is inserted; a new id gets a new stream and every other entry is unchanged |
| `Tags.TagService.CreateTag` | src/app/services/tag.service.ts:69-82 | on success writes the new record, clears the cache and returns the new id; on failure nothing changes |
| `Tags.TagService.UpdateTag` | src/app/services/tag.service.ts:84-89 | on success writes the changes without the creation date and clears the cache; on failure nothing changes |
| `Tags.TagService.DeleteTag` | src/app/services/tag.service.ts:91-95 | on success writes the deletion and clears the cache; on failure nothing changes |
| `Tags.TagService.UpdateTagsUsage` | src/app/services/tag.service.ts:97-112 | on success commits the staged batch and clears the cache; on failure nothing changes |
| `Tags.TagService.InvalidateCache` | src/app/services/tag.service.ts:114-117 | the cache is empty and the all-tags stream is a new one |
| `TagForm.NameIsValid` | src/app/components/tag-manager/tag-manager.component.ts:30 | a name is accepted exactly when it is present and not all white space |
| `TagForm.CopyOf` | src/app/components/tag-manager/tag-manager.component.ts:53 | a field-wise copy of the tag |
| `TagForm.TagManager.constructor` | src/app/components/tag-manager/tag-manager.component.ts:18-24 | a blank form, not editing |
| `TagForm.TagManager.SalvarTag` | src/app/components/tag-manager/tag-manager.component.ts:28-48 | an invalid name makes no call and changes nothing; a valid one updates exactly when editing with a truthy id and creates otherwise; success writes the record, clears the service's cache and resets the form; failure leaves form and service as they were |
| `TagForm.TagManager.EditarTag` | src/app/components/tag-manager/tag-manager.component.ts:50-54 | editing on, the tag's id, a copy of the tag in the form |
| `TagForm.TagManager.DeletarTag` | src/app/components/tag-manager/tag-manager.component.ts:56-66 | without confirmation no call is made; with it, the deletion is written and the service's cache cleared on success, and nothing changes on failure |
| `TagForm.TagManager.CancelarEdicao` | src/app/components/tag-manager/tag-manager.component.ts:68-70 | the same state as a reset |
| `TagForm.TagManager.ResetForm` | src/app/components/tag-manager/tag-manager.component.ts:72-79 | blank name and description, editing off, no id |
| `HomePage.DefaultAnime` | src/app/pages/home/home.component.ts:28-33 | empty title, 0 seasons, 0 episodes, status "in progress" |
| `HomePage.DefaultManga` | src/app/pages/home/home.component.ts:21-34 | empty text fields, no genres, no chapters, the default adaptation; id, tag ids and anime flag absent |
| `HomePage.GenresFromInput` | src/app/pages/home/home.component.ts:64 | one genre per comma plus one; no genre contains a comma or has white space at either end; a genre is empty exactly when its piece was all white space |
| `HomePage.GenresAreTrimmedPieces` | src/app/pages/home/home.component.ts:64 | one genre per comma-separated piece, each the trimmed piece at the same position |
| `HomePage.TrimmedPiecesHaveNoComma` | src/app/pages/home/home.component.ts:64 | trimming pieces without commas leaves pieces without commas |
| `HomePage.TrimmedPieces` | src/app/pages/home/home.component.ts:64-106 | trimming the pieces of a `", "` join of tidy genres gives the genres back, one for one |
| `HomePage.GenresRoundTrip` | src/app/pages/home/home.component.ts:64-106 | for a non-empty list of genres with no commas and no surrounding white space, joining with `", "` and reading back gives the list |
| `HomePage.EmptyInputGivesOneGenre` | src/app/pages/home/home.component.ts:64-106 | an empty genre field, and so a manga with no genres saved unchanged, gives one empty genre |
| `HomePage.EditCopy` | src/app/pages/home/home.component.ts:92-105 | the listed fields copied, id, tag ids and anime flag dropped, the default adaptation when there is none |
| `HomePage.NewChapter` | src/app/pages/home/home.component.ts:123-128 | numbered one past the chapter count, empty title and URL, dated now, no page list |
| `HomePage.WithChapterAdded` | src/app/pages/home/home.component.ts:122-130 | one chapter more, numbered after the old count, existing chapters unchanged and in place |
| `HomePage.SpliceStart` | src/app/pages/home/home.component.ts:133 | a non-negative index up to the length is used as is, a negative one counts from the end, and both are clamped to the list |
| `HomePage.Spliced` | src/app/pages/home/home.component.ts:132-134 | at most one chapter leaves: the one at the splice start when that is inside the list; the others keep their order and numbers |
| `HomePage.RemoveInRange` | src/app/pages/home/home.component.ts:132-134 | an index inside the list removes exactly that chapter |
| `HomePage.AddThenRemoveLast` | src/app/pages/home/home.component.ts:122-134 | adding a chapter and removing the last one gives the list back |
| `HomePage.Submitted` | src/app/pages/home/home.component.ts:64 | the form with its genres replaced by those read from the genre field, nothing else changed |
| `HomePage.SaveWrite` | src/app/pages/home/home.component.ts:69-80 | an update of the edited document with `id` removed exactly when editing with an id, an insertion of the form otherwise |
| `HomePage.Home.constructor` | src/app/pages/home/home.component.ts:17-34 | the default form, empty genre field, not editing |
| `HomePage.Home.ResetForm` | src/app/pages/home/home.component.ts:43-61 | the default form, empty genre field, editing off, no id |
| `HomePage.Home.RegistrarManga` | src/app/pages/home/home.component.ts:63-87 | genres are read into the form first; on success the write of `SaveWrite` is made and the form reset; on failure no write and no reset, but the read genres stay |
| `HomePage.Home.EditarManga` | src/app/pages/home/home.component.ts:89-107 | editing on, the manga's id, its copy in the form and its genres joined with `", "` in the field |
| `HomePage.Home.ExcluirManga` | src/app/pages/home/home.component.ts:109-120 | the deletion is written only when confirmed and successful |
| `HomePage.Home.AdicionarCapitulo` | src/app/pages/home/home.component.ts:122-130 | one new chapter appended, nothing else in the form changed |
| `HomePage.Home.RemoverCapitulo` | src/app/pages/home/home.component.ts:132-134 | the chapter list becomes its splice at the index, nothing else changed |
| `HomePage.Home.CancelarEdicao` | src/app/pages/home/home.component.ts:136-138 | the same state as a reset |
| `Mangas.ProcessChapter` | src/app/services/manga.service.ts:42-47 | always a page list (the chapter's own, or empty) and a date (the chapter's own, or now); number, title and URL kept |
| `Mangas.ProcessManga` | src/app/services/manga.service.ts:40-49 | every non-chapter field kept; chapters mapped one for one, length and order preserved; every chapter normalised |
| `Mangas.ProcessChapterKeepsNormalised` | src/app/services/manga.service.ts:45-46 | a chapter that has pages and a date is left as it is |
| `Mangas.ProcessMangaIdempotent` | src/app/services/manga.service.ts:40-49 | processing twice, at any times, is processing once |
| `Mangas.ProcessMangas` | src/app/services/manga.service.ts:51-53 | every manga processed, length and order preserved |
| `Mangas.ProcessMangasAppend` | src/app/services/manga.service.ts:51-53 | processing two lists and concatenating equals processing their concatenation |
| `Mangas.MangaFromDocument` | src/app/services/manga.service.ts:31-36 | no document gives null; a document gives its processed, normalised form |

## Left out

- Zoom, pan, pinch and wheel gestures: the reader component has no such code.
- The `ngOnInit` hooks. The reader's only logs; the manga page's loads the manga stream from the route parameter.
- Firestore itself. This covers the contents of the streams, `shareReplay`, the `toDate` conversion of stored tags, and what a committed write does to stored documents. Streams are opaque values, writes are entries of an effect log, and whether a write resolves is a parameter.
- `alert`, `confirm` dialogs, `console` output. A confirmation is a boolean parameter, and emitted outputs are entries of an event log.
- The login, registration and file-upload services, the route and provider configuration, and the user type: none of them is part of this model.
- Viewer.MangaViewer: whether the page keeps one reader instance across chapter changes depends on the page templates, which are not part of this model. Both lifetimes are covered: the constructor starts a fresh reader at page 0, and `SetCapitulo` hands a kept reader a new chapter without resetting its index.
- Viewer.MangaViewer.GoToPage: takes an integer. A fractional index such as 1.5 passes the source's guard and then shows no image; that case is not modelled.
- TagForm.TagManager.SalvarTag: the handler is one atomic step, with the write's outcome as a parameter. In the source it yields at each `await`. Editing, cancelling or typing while the write is pending is therefore not modelled, nor is the success path's reset wiping those changes. The same holds for TagForm.TagManager.DeletarTag and HomePage.Home.RegistrarManga.
- Mangas.ProcessManga: every stored manga has a chapter list. A document without a `capitulos` array makes `map` throw inside the stream; the service guards `paginas` with `Array.isArray` but not `capitulos`, and that failure is not modelled.
- Selector.TagSelector.ReceiveTags: the subscription in `loadTags` is modelled as the host calling this method with each list the stream delivers.
- Selector.TagSelector.ReceiveTags: requires every tag to carry an id, as every tag read with `idField: 'id'` does. The source's `tag.id!` on a tag without one is not modelled.
- Selector.TagSelector.ToggleTag: takes the record's position rather than the record object, which the source shares between `tagSelections` and `filteredTags`.
- Selector.SortPositions: the engine's sort is modelled as an insertion sort. The model proves that sort a permutation and ordered by the comparator, but not stable.
- Text.NameLe: `localeCompare` is modelled as code-point order. Locale collation is not modelled.
- Text.Lower: lowers ASCII letters only. Unicode case mapping is not modelled.
- Tags.TagService.CreateTag: the id the database assigns is the parameter `newId`.
- Tags.TagService.UpdateTagsUsage: the selector does not wait for this call; it attaches a `.catch` that only logs a failure. The model records the request as an event of the selector.
- HomePage.Home.EditarManga: the form copy shares the chapter array with the listed manga, so a later `push` or `splice` also changes the listed manga. The model copies values and does not capture that sharing.
- HomePage.Home.RemoverCapitulo: ordinary integer indices are modelled. A fractional, `NaN` or infinite index and splice's number conversion are not modelled.
- Mangas.ProcessChapter: re-creating a date with `new Date(...)` is the identity. All chapters of one call share one `now`, whereas the source reads the clock per chapter. A chapter whose `paginas` is present but not an array is represented with no page list.
