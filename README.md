# O Jardim da Mamãe — a Dafny model of the plant catalogue's core

This project models the core of "O Jardim da Mamãe", a small React app that keeps a
catalogue of plants. It covers:

- **The catalogue screen (`App.tsx`).**
  - The class `App.AppState` holds the plant list, the seven form fields (name,
    species, notes, typed image URL, tags, photo preview, photo file), the busy flag,
    the status line, the transient notice and the delete-confirmation dialog.
  - Each handler is a method that assigns the fields its React state setters update:
    adding a plant, deleting one, opening, cancelling and confirming the dialog,
    choosing or clearing a photo, resetting the form and toggling a tag.
  - The list transformations the handlers use are pure functions in `Catalog`:
    - `[newPlant, ...prev].sort((a, b) => b.createdAt - a.createdAt)`, a stable sort
      newest first;
    - `prev.filter(p => p.id !== plantId)`;
    - the `Pet-Friendly` update of the draft's tags after a photo analysis.
- **The tag checkboxes of the form (`components/PlantForm.tsx`)**, as `PlantForm.Toggle`.
- **The decisions of the AI service wrapper (`services/geminiService.ts`).**
  - For the health analysis:
    - the blank-notes guard, with JavaScript's `trim` whitespace set;
    - the normalisation of the reply: trim, then remove every double quote;
    - the exact match against `Healthy`, `Needs Attention` and `Critical`;
    - `Healthy` as the fallback and on any failure.
  - For the image analysis: the shape check of the parsed reply, where one generic
    error stands for every failure.
- **The records and vocabularies (`types.ts`, `constants.ts`)**, as datatypes in
  `Types`.

Module layout:

| module | file | models |
|---|---|---|
| `Wrappers` | Wrappers.dfy | `Option`, `Result` |
| `Seqs` | Seqs.dfy | `filter(x => x !== v)` and `Array.from(new Set(s))` on sequences |
| `Types` | Types.dfy | types.ts, the vocabulary of constants.ts |
| `PlantForm` | PlantForm.dfy | components/PlantForm.tsx |
| `GeminiService` | GeminiService.dfy | services/geminiService.ts |
| `Catalog` | Catalog.dfy | the list expressions of App.tsx |
| `App` | App.dfy | the state and handlers of App.tsx |

The following become parameters:

- the clock (`Date.now()`);
- the generated id;
- the photo's preview reference;
- whether an API key is configured;
- what the AI provider answers: a reply text or a failure for the health analysis,
  and a parsed JSON value or a failure for the image analysis.

`SubmitPlant` and `ApplyImageAnalysis` are the `try` blocks of `handleAddPlant` and
`handlePhotoChange`. `AddRecord` is the `setPlants` updater of `handleAddPlant`.

Two behaviours of the code worth noting:

- A name is rejected only when it is the empty string (`!plantName`), so a name of
  spaces is accepted.
- Tags outside the vocabulary are not rejected at run time. The datatype
  `Classification` makes them impossible here.

## Model

| member | source | states |
|---|---|---|
| `Types.VocabularyComplete` | constants.ts:4-11 | the form's tag list holds every one of the six tags of types.ts, each exactly once |
| `Types.ClassificationLabelInjective` | types.ts:4 | distinct tags have distinct string literals |
| `Types.HealthLabelInjective` | types.ts:2 | distinct health states have distinct string literals |
| `Seqs.RemoveAll` | components/PlantForm.tsx:31 | `filter(x => x !== v)` leaves no `v`, keeps every other value with its multiplicity, and is no longer than its input |
| `Seqs.RemoveAllAppend` | components/PlantForm.tsx:31 | the filter distributes over concatenation, so the kept elements stay in their order |
| `Seqs.RemoveAllAbsent` | components/PlantForm.tsx:31 | filtering out a value that is absent returns the list unchanged |
| `Seqs.RemoveAllNoDups` | components/PlantForm.tsx:31 | filtering keeps a duplicate-free list duplicate-free |
| `Seqs.RemoveAllSurround` | services/geminiService.ts:80 | removing `v` from `v + s + v`, where `s` has no `v`, gives `s` |
| `Seqs.Dedup` | App.tsx:171-177 | `Array.from(new Set(s))` has no duplicates, holds exactly the values of `s`, and is no longer than `s` |
| `Seqs.DedupSnoc` | App.tsx:171-177 | first-occurrence order: appending a value already present leaves the de-duplication unchanged, appending a new one adds it at the end |
| `Seqs.DedupNoDups` | App.tsx:171-177 | on a list without duplicates, the set round trip returns the list unchanged |
| `PlantForm.Toggle` | components/PlantForm.tsx:28-34 | `c` is in the result iff it was not in the input; other tags keep their membership; an absent `c` is appended at the end; with `c` filtered out, both lists are equal, so the other tags keep their order; no duplicates are introduced |
| `PlantForm.ToggleTwice` | components/PlantForm.tsx:30-32 | toggling an unselected tag twice returns the original selection |
| `PlantForm.ToggleTwiceSelected` | components/PlantForm.tsx:30-32 | toggling a selected tag twice drops its other occurrences and moves it to the end |
| `GeminiService.TrimStartSpec` | services/geminiService.ts:80 | the leading part `trim` removes is all whitespace, and what is left does not start with whitespace |
| `GeminiService.TrimEndSpec` | services/geminiService.ts:80 | the trailing part `trim` removes is all whitespace, and what is left does not end with whitespace |
| `GeminiService.TrimSpec` | services/geminiService.ts:80 | `trim` leaves text that neither starts nor ends with whitespace and uses only characters of its input; it leaves nothing iff the input is all whitespace |
| `GeminiService.TrimPadded` | services/geminiService.ts:80 | trimming text padded by whitespace gives back exactly that text |
| `GeminiService.TrimStartPadded` | services/geminiService.ts:80 | removing leading whitespace gives back the text behind the whitespace prefix |
| `GeminiService.TrimEndPadded` | services/geminiService.ts:80 | removing trailing whitespace gives back the text before the whitespace suffix |
| `GeminiService.ConsultsProviderIff` | services/geminiService.ts:66-68 | the provider is asked iff the notes hold a character that is not whitespace |
| `GeminiService.NormalizeReplySpec` | services/geminiService.ts:80 | the normalised reply holds no double quote, uses only characters of the reply and is no longer than it |
| `GeminiService.ParseHealthIff` | services/geminiService.ts:82-83 | a text is taken as a status iff it equals that status's literal exactly |
| `GeminiService.AnalyzePlantHealthSpec` | services/geminiService.ts:64-91 | gives `Healthy` when the notes are blank or the call fails; otherwise gives the status whose literal equals the normalised reply, or `Healthy` when none does |
| `GeminiService.UnquoteLabel` | services/geminiService.ts:80 | removing the double quotes around a status literal gives the literal back |
| `GeminiService.QuotedLiteralAccepted` | services/geminiService.ts:80-83 | a reply that is a status literal in double quotes, with whitespace around it, yields that status (e.g. `"Critical"` yields `Critical`) |
| `GeminiService.BlankNotesIgnoreReply` | services/geminiService.ts:66-68 | for blank notes the result is `Healthy`, whatever the provider would answer |
| `GeminiService.AnalyzePlantImage` | services/geminiService.ts:50-61 | succeeds iff the reply parsed to a truthy value with a string `species`, a string `notes` and a boolean `isToxic`, and then returns exactly those three fields; every failure is the one `AnalysisFailed` error |
| `GeminiService.ToJson` | services/geminiService.ts:9-26 | the schema's object has exactly the keys `species`, `notes` and `isToxic`, and the shape check accepts it and reads the same result back |
| `GeminiService.SchemaReplyAccepted` | services/geminiService.ts:53-57 | an object following the schema is accepted, even with extra fields, and read back unchanged |
| `GeminiService.NonObjectRejected` | services/geminiService.ts:53-54 | any reply that is not an object is rejected |
| `Catalog.InsertSpec` | App.tsx:111 | inserting into the sorted list adds exactly the new plant and keeps a list that is newest first in order |
| `Catalog.ConsNewestFirst` | App.tsx:111 | a plant at least as new as every plant of an ordered list can go in front of it |
| `Catalog.BelowHead` | App.tsx:111 | plants taken from the tail of an ordered list, plus one no newer than its head, are no newer than that head |
| `Catalog.InsertBelowHead` | App.tsx:111 | inserting behind the head of an ordered list keeps it ordered |
| `Catalog.SortSpec` | App.tsx:111 | the sort returns a permutation of its input that is non-increasing by `createdAt` |
| `Catalog.AddToCatalogSpec` | App.tsx:111 | after adding, the list is one longer, is a permutation of the old list plus the new plant, holds exactly the old plants and the new one, and is newest first |
| `Catalog.InsertionPoint` | App.tsx:111 | the insertion point lies within the list |
| `Catalog.InsertionPointSplits` | App.tsx:111 | the plants before the insertion point are strictly newer than the new plant, and the one at it is not |
| `Catalog.InsertAt` | App.tsx:111 | the new plant lands exactly at its insertion point, and the others keep their order around it |
| `Catalog.SortKeepsSorted` | App.tsx:111 | sorting a list that is already newest first leaves it unchanged |
| `Catalog.AddToSortedIsInsert` | App.tsx:111 | on an ordered list, adding puts the new plant ahead of every plant at most as new (ties included) and leaves the rest in place |
| `Catalog.NewestPlantLeads` | App.tsx:104-111 | when no plant is newer than the new one, the new plant leads and the old list follows unchanged |
| `Catalog.UniqueIdsCons` | App.tsx:110 | a list with a plant in front has distinct ids iff the plant's id is new and the rest have distinct ids |
| `Catalog.InsertKeepsIdsUnique` | App.tsx:110-111 | inserting a plant with a fresh id keeps ids distinct |
| `Catalog.SortKeepsIdsUnique` | App.tsx:111 | sorting keeps ids distinct |
| `Catalog.AddKeepsIdsUnique` | App.tsx:110-111 | adding a plant with a fresh id keeps ids distinct and adds exactly that id |
| `Catalog.WithoutId` | App.tsx:126 | after a delete, the list holds exactly the plants whose id differs, each as often as before; no plant has the id; it is no longer than before |
| `Catalog.WithoutIdAppend` | App.tsx:126 | the delete distributes over concatenation, so the kept plants stay in their relative order |
| `Catalog.WithoutIdAbsent` | App.tsx:126 | deleting an id that is not in the list leaves it unchanged |
| `Catalog.WithoutIdIdempotent` | App.tsx:126 | deleting twice equals deleting once |
| `Catalog.WithoutIdKeepsOrder` | App.tsx:126 | deleting keeps the list newest first |
| `Catalog.WithoutIdKeepsIdsUnique` | App.tsx:126 | deleting keeps ids distinct; with distinct ids, it removes exactly one plant when the id is present and none otherwise |
| `Catalog.AddKeepsWellFormed` | App.tsx:110-111 | adding a plant with a fresh id keeps the list newest first with distinct ids |
| `Catalog.DeleteKeepsWellFormed` | App.tsx:126 | deleting keeps the list newest first with distinct ids |
| `Catalog.PetFriendlyTags` | App.tsx:170-178 | `Pet-Friendly` is in the result iff `isToxic` is false; every other tag keeps its membership; the result has no duplicates; with `Pet-Friendly` filtered out, it equals the de-duplicated input |
| `Catalog.PetFriendlyKeepsOthersInOrder` | App.tsx:170-178 | on a selection without duplicates, the other tags keep their order |
| `App.NoticeTextInjective` | App.tsx:59-62 | the five notices the screen shows have distinct texts |
| `App.StatusTextInjective` | App.tsx:84-120 | the status lines are distinct, and only the idle status is the empty line restored when the work ends |
| `App.ClosedModalBlank` | App.tsx:128 | a closed dialog is hidden with an empty title and message |
| `App.FinalImageUrl` | App.tsx:89-96 | with a photo file, the record's image is the preview reference, or `""` when there is none; without one, it is the typed URL |
| `App.AppState.constructor` | App.tsx:15-43 | the stored list (empty when none is stored), an empty form, no notice, an idle form and a closed dialog |
| `App.AppState.ResetForm` | App.tsx:64-74 | the seven form fields are back to empty, and nothing else changes |
| `App.AppState.HandleClassificationChange` | components/PlantForm.tsx:28-34 | the selected tags become `Toggle` of the old ones |
| `App.AppState.AddRecord` | App.tsx:111 | the list becomes the old list with the record added and re-sorted; a well-formed list stays well formed when the id is fresh |
| `App.AppState.SubmitPlant` | App.tsx:83-121 | the record copies name, species, notes and tags from the form, with the image from `FinalImageUrl`, `createdAt = now` and the analysed health; the provider is asked iff the notes are not blank; the record is added; the form is cleared; the busy state ends; the notice is "Planta adicionada ao Jardim!" |
| `App.AppState.HandleAddPlant` | App.tsx:76-122 | an empty name only sets the validation notice: the list, the form, the busy flag and the status stay as they were, and the provider is not asked; any other name behaves as `SubmitPlant`, and a fresh id keeps the list well formed |
| `App.AppState.HandleDeletePlant` | App.tsx:124-129 | the list loses exactly the plants with that id, stays well formed, the removal notice is shown and the dialog is closed |
| `App.AppState.OpenDeleteConfirmation` | App.tsx:131-138 | the dialog opens with the title `Confirma Exclusão?` and a question naming this plant, and its confirm deletes this plant's id |
| `App.AppState.CancelModal` | App.tsx:232 | the dialog closes and keeps its contents |
| `App.AppState.ConfirmModal` | App.tsx:131-138 | only an open dialog can be confirmed; confirming deletes the plant the dialog asks about; a dialog asking about nothing changes nothing |
| `App.AppState.ApplyImageAnalysis` | App.tsx:167-183 | a result sets species and notes and applies `PetFriendlyTags` by `isToxic`; a failure leaves those fields untouched; either way the matching notice is shown |
| `App.AppState.HandlePhotoChange` | App.tsx:149-189 | without a file nothing changes; with one, the photo and its preview are set, the typed URL is cleared and the busy state ends; a missing API key is a failure; the analysis result is applied |
| `App.AppState.HandleClearPhoto` | App.tsx:191-196 | the photo file and its preview are cleared |

## Left out

- The AI client, its prompts, model names and response schema configuration are left
  out. The provider's reply is an input.
- The browser storage is left out: `localStorage` reads and writes, and `JSON.parse`/
  `JSON.stringify` of the list. The stored list is the constructor's argument, and a
  failed read counts as nothing stored.
- File handling is left out: `FileReader`, the base64 conversion and
  `URL.createObjectURL`. The preview reference is a parameter, and a failed conversion
  counts as a failed reply.
- The timers are left out:
  - the three-second dismissal of the notice;
  - the one-second simulated upload.
- The `loading` flag of the list and the enlarged-image modal (`imageModalUrl`) are
  display state with no logic, and are left out.
- The rendering components and the style maps are presentation, and are left out.
- The `catch` branch of `handleAddPlant` ("Erro ao adicionar planta.") is not modelled.
  `analyzePlantHealth` never throws, and nothing else in the `try` block can fail in
  this model.
- Ids are a parameter. The source builds them as `plant-` followed by the clock, so
  two plants added in the same millisecond share an id, and deleting one deletes both.
  The model states id uniqueness only under a fresh-id precondition.
- JSON numbers are whole numbers here, since floating point is out of scope.
- `GeminiService.AnalyzePlantImage`: an accepted object keeps only its three checked
  fields. Any extra fields the source would carry along are dropped.
- The model does not capture the asynchronous interleaving of state updates. Each
  handler runs to completion, and the intermediate status lines (`AnalyzingHealth`,
  `UploadingImage`, `AddingPlant`, `AnalyzingImage`) are overwritten before it returns.
