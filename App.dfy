/** The catalogue screen's state and its event handlers (App.tsx): the plant list,
    the seven form fields, the busy flag and status line, the transient message and
    the delete-confirmation dialog. Every React state setter becomes an assignment
    to a field; the clock, the generated id, the photo's preview reference and the
    provider replies are parameters. */
module App {
  import opened Wrappers
  import opened Types
  import opened PlantForm
  import opened GeminiService
  import opened Catalog

  /** A selected photo file; only its presence and type matter to the model. */
  datatype PhotoFile = PhotoFile(mimeType: string)

  /** The transient notices `showTemporaryMessage` displays. */
  datatype Notice = NameRequired | PlantAdded | PlantRemoved | AnalysisDone | AnalysisError

  function NoticeText(n: Notice): string {
    match n
    case NameRequired => "O nome da planta é obrigatório."
    case PlantAdded => "Planta adicionada ao Jardim!"
    case PlantRemoved => "Planta removida com sucesso!"
    case AnalysisDone => "Análise da planta concluída!"
    case AnalysisError => "Erro na análise. Por favor, preencha manually."
  }

  /** Distinct notices show distinct texts, so the model loses nothing by naming them. */
  lemma NoticeTextInjective(m: Notice, n: Notice)
    ensures NoticeText(m) == NoticeText(n) ==> m == n
  {
  }

  /** The status line under the busy submit button; `NoStatus` is the empty line. */
  datatype FormStatus = NoStatus | AnalyzingHealth | UploadingImage | AddingPlant | AnalyzingImage

  function StatusText(s: FormStatus): string {
    match s
    case NoStatus => ""
    case AnalyzingHealth => "Analisando saúde da planta..."
    case UploadingImage => "Fazendo upload da imagem..."
    case AddingPlant => "Adicionando planta..."
    case AnalyzingImage => "Analisando imagem com IA..."
  }

  /** Distinct statuses show distinct lines, and only `NoStatus` is the empty line
      that the `finally` blocks restore. */
  lemma StatusTextInjective(s: FormStatus, t: FormStatus)
    ensures StatusText(s) == StatusText(t) ==> s == t
    ensures StatusText(s) == "" <==> s == NoStatus
  {
  }

  /** What the confirmation dialog asks about: the plant's name for the question and
      its id for the confirm callback. */
  datatype DeletePrompt = DeletePrompt(plantName: string, plantId: string)

  /** The confirmation dialog. Without a prompt its title and message are empty and
      its confirm callback does nothing. */
  datatype ModalState = ModalState(isOpen: bool, prompt: Option<DeletePrompt>) {
    function Title(): string {
      if prompt.Some? then "Confirma Exclusão?" else ""
    }

    function Message(): string {
      if prompt.Some? then "Tem certeza que deseja remover a planta \"" + prompt.value.plantName + "\"?" else ""
    }
  }

  const ClosedModal: ModalState := ModalState(false, None)

  /** The dialog every close leaves behind: hidden, with an empty title and message. */
  lemma ClosedModalBlank()
    ensures !ClosedModal.isOpen && ClosedModal.Title() == "" && ClosedModal.Message() == ""
  {
  }

  /** The image a new record gets: with a photo file selected, its preview reference
      (or `""` without one); otherwise the typed URL. */
  function FinalImageUrl(typedUrl: string, photoPreview: Option<string>, photoFile: Option<PhotoFile>): (url: string)
    ensures photoFile.None? ==> url == typedUrl
    ensures photoFile.Some? && photoPreview.Some? ==> url == photoPreview.value
    ensures photoFile.Some? && photoPreview.None? ==> url == ""
  {
    if photoFile.Some? then (if photoPreview.Some? then photoPreview.value else "") else typedUrl
  }

  class AppState {
    var plants: seq<Plant>

    var plantName: string
    var plantSpecies: string
    var plantNotes: string
    var plantImageUrl: string
    var plantClassifications: seq<Classification>
    var photoPreview: Option<string>
    var photoFile: Option<PhotoFile>

    var isFormLoading: bool
    var formStatusMessage: FormStatus
    var tempMessage: Option<Notice>
    var modal: ModalState

    /** Every form field is back to its initial, empty value. */
    predicate FormCleared()
      reads this
    {
      && plantName == "" && plantSpecies == "" && plantNotes == "" && plantImageUrl == ""
      && plantClassifications == [] && photoPreview.None? && photoFile.None?
    }

    /** The screen as first shown: the stored list (none stored means empty), an empty
        form, no message and the dialog closed. */
    constructor (stored: Option<seq<Plant>>)
      ensures plants == if stored.Some? then stored.value else []
      ensures FormCleared()
      ensures !isFormLoading && formStatusMessage == NoStatus && tempMessage.None?
      ensures modal == ClosedModal
    {
      plants := if stored.Some? then stored.value else [];
      plantName, plantSpecies, plantNotes, plantImageUrl := "", "", "", "";
      plantClassifications := [];
      photoPreview, photoFile := None, None;
      isFormLoading, formStatusMessage, tempMessage := false, NoStatus, None;
      modal := ClosedModal;
    }

    /** `resetForm`: clears the seven form fields and nothing else. */
    method ResetForm()
      modifies this`plantName, this`plantSpecies, this`plantNotes, this`plantImageUrl
      modifies this`plantClassifications, this`photoPreview, this`photoFile
      ensures FormCleared()
    {
      plantName := "";
      plantSpecies := "";
      plantNotes := "";
      plantImageUrl := "";
      plantClassifications := [];
      photoPreview := None;
      photoFile := None;
    }

    /** `handleClassificationChange` wired to `setClassifications`. */
    method HandleClassificationChange(c: Classification)
      modifies this`plantClassifications
      ensures plantClassifications == Toggle(old(plantClassifications), c)
    {
      plantClassifications := Toggle(plantClassifications, c);
    }

    /** The `setPlants` updater of `handleAddPlant`: the new record goes in front and
        the list is re-sorted newest first. */
    method AddRecord(p: Plant)
      modifies this`plants
      ensures plants == AddToCatalog(old(plants), p)
      ensures WellFormed(old(plants)) && p.id !in IdSet(old(plants)) ==> WellFormed(plants)
    {
      ghost var before := plants;
      plants := AddToCatalog(plants, p);
      if WellFormed(before) && p.id !in IdSet(before) {
        AddKeepsWellFormed(before, p);
      }
    }

    /** The `try` block of `handleAddPlant`, reached once the name is present.
        `healthReply` is what the health provider would answer, `now` the time of the
        record and `id` its generated id. The record is built from the form, with the
        photo's preview replacing the typed URL when a photo is chosen, added and sorted
        in; the form is cleared and the busy state ends. `askedProvider` tells whether
        the health provider was called. */
    method SubmitPlant(healthReply: HealthReply, now: int, id: string)
      returns (added: Plant, askedProvider: bool)
      modifies this`plants, this`isFormLoading, this`formStatusMessage, this`tempMessage
      modifies this`plantName, this`plantSpecies, this`plantNotes, this`plantImageUrl
      modifies this`plantClassifications, this`photoPreview, this`photoFile
      ensures askedProvider == ConsultsProvider(old(plantNotes))
      ensures added == Plant(id, old(plantName), old(plantSpecies), old(plantNotes),
                             FinalImageUrl(old(plantImageUrl), old(photoPreview), old(photoFile)),
                             old(plantClassifications), now, AnalyzePlantHealth(old(plantNotes), healthReply))
      ensures plants == AddToCatalog(old(plants), added)
      ensures WellFormed(old(plants)) && id !in IdSet(old(plants)) ==> WellFormed(plants)
      ensures FormCleared()
      ensures !isFormLoading && formStatusMessage == NoStatus
      ensures tempMessage == Some(PlantAdded)
    {
      isFormLoading := true;
      formStatusMessage := AnalyzingHealth;

      askedProvider := ConsultsProvider(plantNotes);
      var healthStatus := AnalyzePlantHealth(plantNotes, healthReply);

      var finalImageUrl := plantImageUrl;
      if photoFile.Some? {
        formStatusMessage := UploadingImage;
        finalImageUrl := if photoPreview.Some? then photoPreview.value else "";
      }

      added := Plant(id, plantName, plantSpecies, plantNotes, finalImageUrl,
                     plantClassifications, now, healthStatus);
      formStatusMessage := AddingPlant;
      AddRecord(added);

      tempMessage := Some(PlantAdded);
      ResetForm();

      isFormLoading := false;
      formStatusMessage := NoStatus;
    }

    /** `handleAddPlant`: an empty name only shows the validation message and changes
        nothing else; any other name submits the form. */
    method HandleAddPlant(healthReply: HealthReply, now: int, id: string)
      returns (added: Option<Plant>, askedProvider: bool)
      modifies this`plants, this`isFormLoading, this`formStatusMessage, this`tempMessage
      modifies this`plantName, this`plantSpecies, this`plantNotes, this`plantImageUrl
      modifies this`plantClassifications, this`photoPreview, this`photoFile
      ensures old(plantName) == "" ==>
        && added.None? && !askedProvider
        && tempMessage == Some(NameRequired)
        && unchanged(this`plants, this`isFormLoading, this`formStatusMessage)
        && unchanged(this`plantName, this`plantSpecies, this`plantNotes, this`plantImageUrl)
        && unchanged(this`plantClassifications, this`photoPreview, this`photoFile)
      ensures old(plantName) != "" ==>
        && added.Some?
        && askedProvider == ConsultsProvider(old(plantNotes))
        && added.value == Plant(id, old(plantName), old(plantSpecies), old(plantNotes),
                                FinalImageUrl(old(plantImageUrl), old(photoPreview), old(photoFile)),
                                old(plantClassifications), now, AnalyzePlantHealth(old(plantNotes), healthReply))
        && plants == AddToCatalog(old(plants), added.value)
        && FormCleared()
        && !isFormLoading && formStatusMessage == NoStatus
        && tempMessage == Some(PlantAdded)
      ensures old(plantName) != "" && WellFormed(old(plants)) && id !in IdSet(old(plants)) ==> WellFormed(plants)
    {
      if plantName == "" {
        tempMessage := Some(NameRequired);
        return None, false;
      }
      var record;
      record, askedProvider := SubmitPlant(healthReply, now, id);
      added := Some(record);
    }

    /** `handleDeletePlant`: drops every record with this id, reports it and closes
        the dialog; the form is untouched. */
    method HandleDeletePlant(plantId: string)
      modifies this`plants, this`tempMessage, this`modal
      ensures plants == WithoutId(old(plants), plantId)
      ensures WellFormed(old(plants)) ==> WellFormed(plants)
      ensures tempMessage == Some(PlantRemoved)
      ensures modal == ClosedModal
    {
      ghost var before := plants;
      plants := WithoutId(plants, plantId);
      if WellFormed(before) {
        DeleteKeepsWellFormed(before, plantId);
      }
      tempMessage := Some(PlantRemoved);
      modal := ClosedModal;
    }

    /** `openDeleteConfirmation`: opens the dialog asking about `plant`, whose confirm
        button deletes `plant.id`. */
    method OpenDeleteConfirmation(plant: Plant)
      modifies this`modal
      ensures modal == ModalState(true, Some(DeletePrompt(plant.name, plant.id)))
      ensures modal.Title() == "Confirma Exclusão?"
      ensures modal.Message() == "Tem certeza que deseja remover a planta \"" + plant.name + "\"?"
    {
      modal := ModalState(true, Some(DeletePrompt(plant.name, plant.id)));
    }

    /** The dialog's cancel button: closes it and keeps its contents. */
    method CancelModal()
      modifies this`modal
      ensures modal == old(modal).(isOpen := false)
    {
      modal := modal.(isOpen := false);
    }

    /** The confirm button of the open dialog (a closed dialog renders nothing, so its
        button cannot be pressed): runs the callback, which deletes the plant the dialog
        asks about, or does nothing when it asks about none. */
    method ConfirmModal()
      requires modal.isOpen
      modifies this`plants, this`tempMessage, this`modal
      ensures old(modal).prompt.Some? ==>
        && plants == WithoutId(old(plants), old(modal).prompt.value.plantId)
        && modal == ClosedModal && tempMessage == Some(PlantRemoved)
      ensures old(modal).prompt.None? ==> unchanged(this`plants, this`tempMessage, this`modal)
    {
      if modal.prompt.Some? {
        HandleDeletePlant(modal.prompt.value.plantId);
      }
    }

    /** The `try`/`catch` of `handlePhotoChange` after the provider answered: a result
        fills species and notes and sets the `Pet-Friendly` tag from `isToxic`; a
        failure only reports it, leaving the fields for manual entry. */
    method ApplyImageAnalysis(analysis: Result<AnalysisResult, AnalysisError>)
      modifies this`plantSpecies, this`plantNotes, this`plantClassifications, this`tempMessage
      ensures analysis.Ok? ==>
        && plantSpecies == analysis.value.species && plantNotes == analysis.value.notes
        && plantClassifications == PetFriendlyTags(old(plantClassifications), analysis.value.isToxic)
        && tempMessage == Some(AnalysisDone)
      ensures analysis.Err? ==>
        && unchanged(this`plantSpecies, this`plantNotes, this`plantClassifications)
        && tempMessage == Some(AnalysisError)
    {
      match analysis {
        case Ok(result) =>
          plantSpecies := result.species;
          plantNotes := result.notes;
          plantClassifications := PetFriendlyTags(plantClassifications, result.isToxic);
          tempMessage := Some(AnalysisDone);
        case Err(_) =>
          tempMessage := Some(AnalysisError);
      }
    }

    /** `handlePhotoChange`. `file` is the chosen file (none: nothing happens),
        `previewUrl` its preview reference, `apiKeyConfigured` whether an API key is
        set and `reply` what the image provider would answer. The photo replaces the
        typed URL, and the analysis result is applied to the form. */
    method HandlePhotoChange(file: Option<PhotoFile>, previewUrl: string, apiKeyConfigured: bool, reply: ImageReply)
      returns (analysis: Result<AnalysisResult, AnalysisError>)
      modifies this`photoFile, this`photoPreview, this`plantImageUrl, this`isFormLoading
      modifies this`formStatusMessage, this`plantSpecies, this`plantNotes, this`plantClassifications
      modifies this`tempMessage
      ensures file.None? ==>
        && analysis.Err?
        && unchanged(this`photoFile, this`photoPreview, this`plantImageUrl, this`isFormLoading)
        && unchanged(this`formStatusMessage, this`plantSpecies, this`plantNotes, this`plantClassifications)
        && unchanged(this`tempMessage)
      ensures file.Some? ==>
        && photoFile == file && photoPreview == Some(previewUrl) && plantImageUrl == ""
        && !isFormLoading && formStatusMessage == NoStatus
        && analysis == (if apiKeyConfigured then AnalyzePlantImage(reply) else Err(AnalysisFailed))
      ensures file.Some? && analysis.Ok? ==>
        && plantSpecies == analysis.value.species && plantNotes == analysis.value.notes
        && plantClassifications == PetFriendlyTags(old(plantClassifications), analysis.value.isToxic)
        && tempMessage == Some(AnalysisDone)
      ensures file.Some? && analysis.Err? ==>
        && unchanged(this`plantSpecies, this`plantNotes, this`plantClassifications)
        && tempMessage == Some(AnalysisError)
    {
      if file.None? {
        return Err(AnalysisFailed);
      }
      photoFile := file;
      plantImageUrl := "";
      photoPreview := Some(previewUrl);

      isFormLoading := true;
      formStatusMessage := AnalyzingImage;

      analysis := if apiKeyConfigured then AnalyzePlantImage(reply) else Err(AnalysisFailed);
      ApplyImageAnalysis(analysis);

      isFormLoading := false;
      formStatusMessage := NoStatus;
    }

    /** `handleClearPhoto`: forgets the photo and its preview; the typed URL is left as it is. */
    method HandleClearPhoto()
      modifies this`photoFile, this`photoPreview
      ensures photoFile.None? && photoPreview.None?
    {
      photoFile := None;
      photoPreview := None;
    }
  }

  /** Add "Samambaia" with no photo and no notes to an empty catalogue, then delete it
      through the dialog. */
  method SamambaiaScenario(id: string, now: int) {
    var app := new AppState(None);
    app.plantName := "Samambaia";
    var added, asked := app.HandleAddPlant(ReplyFailed, now, id);
    assert !asked;
    AnalyzePlantHealthSpec("", ReplyFailed);
    assert added.Some? && added.value.health == Healthy && added.value.classifications == [];
    NewestPlantLeads([], added.value);
    assert app.plants == [added.value];
    app.OpenDeleteConfirmation(added.value);
    app.ConfirmModal();
    assert app.plants == [] && !app.modal.isOpen;
  }
}
