/**
 `onSubmit` of the "new plant" screen: guard the name, check the signed-in
 user, create the plant, link it to the user with the chosen frequency,
 create the first care task, and classify whatever is thrown.
 */
module NieuwScreen {
  import opened Text
  import opened Results
  import opened Errors
  import opened Slug
  import opened Frequency
  import opened Plants
  import opened Screens

  /** The outcome of `supabase.auth.getUser()`. */
  datatype Auth = AuthFailed(error: Thrown) | SignedOut | SignedIn(userId: string)

  /** How the store answers each remote step of the handler; `None` is success. */
  datatype Backend = Backend(
    auth: Auth,
    plantInsertError: Option<string>,  // the message of the error the plant insert returns
    userPlantError: Option<Thrown>,    // what `createUserPlant` throws
    firstTaskError: Option<Thrown>)    // what `createFirstCareTask` throws

  /** The `catch` block: a duplicate gets a friendly alert, anything else shows its message. */
  function CatchAlert(e: Thrown): (alert: Effect)
    ensures alert.ShowAlert?
  {
    var msg := GetErrorMessage(e);
    if IsDuplicateMessage(msg) then ShowAlert("Bestaat al", "Deze plant is al toegevoegd.")
    else ShowAlert("Error", msg)
  }

  /** A duplicate gets the "Bestaat al" alert; any other message is shown under "Error". */
  lemma CatchAlertClassifies(e: Thrown)
    ensures IsDuplicateMessage(GetErrorMessage(e)) <==> CatchAlert(e).title == "Bestaat al"
    ensures !IsDuplicateMessage(GetErrorMessage(e)) ==> CatchAlert(e) == ShowAlert("Error", GetErrorMessage(e))
  {
  }

  /**
   Everything after the plant row is inserted: link the plant to the user,
   create the first care task, then report success and go back. The first
   step that throws ends the list with the caught alert.
   */
  function AfterPlantInsert(userId: string, frequentie: CareFrequentie, backend: Backend): (effects: seq<Effect>)
    ensures 2 <= |effects| <= 4
    ensures effects[0] == InsertUserPlant(userId, ToDb(frequentie))
    ensures effects[1] == InsertFirstCareTask <==> backend.userPlantError == None
    ensures effects[|effects| - 1] == GoBack <==> backend.userPlantError == None && backend.firstTaskError == None
    ensures effects[|effects| - 1] != GoBack ==> effects[|effects| - 1].ShowAlert?
    ensures forall i :: 0 <= i < |effects| ==> !effects[i].InsertPlant?
    ensures backend.userPlantError.Some? ==>
      effects == [InsertUserPlant(userId, ToDb(frequentie)), CatchAlert(backend.userPlantError.value)]
    ensures backend.userPlantError == None && backend.firstTaskError.Some? ==>
      effects == [InsertUserPlant(userId, ToDb(frequentie)), InsertFirstCareTask, CatchAlert(backend.firstTaskError.value)]
  {
    match backend.userPlantError
    case Some(e) => [InsertUserPlant(userId, ToDb(frequentie)), CatchAlert(e)]
    case None =>
      [InsertUserPlant(userId, ToDb(frequentie)), InsertFirstCareTask] +
      match backend.firstTaskError
      case Some(e) => [CatchAlert(e)]
      case None => [ShowAlert("Success", "Plant is aangemaakt! Verzorging: " + Label(frequentie)), GoBack]
  }

  /**
   The part of `onSubmit` after a user is found: `createPlants` either throws
   before writing or inserts its row, and only an accepted insert goes on.
   */
  function SubmitSignedIn(userId: string, created: Result<PlantInsert, Thrown>, frequentie: CareFrequentie,
                          backend: Backend): (effects: seq<Effect>)
    ensures created.Err? ==> NoWrites(effects) && effects == [CatchAlert(created.error)]
    ensures created.Ok? ==> |effects| >= 2 && effects[0] == InsertPlant(created.value)
    ensures forall i :: 0 < i < |effects| ==> !effects[i].InsertPlant?
    ensures effects[|effects| - 1] == GoBack <==>
      created.Ok? && backend.plantInsertError == None && backend.userPlantError == None && backend.firstTaskError == None
  {
    match created
    case Err(e) => [CatchAlert(e)]
    case Ok(row) =>
      [InsertPlant(row)] +
      match backend.plantInsertError
      case Some(m) => [CatchAlert(ErrorObject("Failed to create plant: " + m))]
      case None => AfterPlantInsert(userId, frequentie, backend)
  }

  /** `onSubmit` with the form's current name, species, location and frequency. */
  function OnSubmit(name: string, species: string, location: string, frequentie: CareFrequentie,
                    backend: Backend): (effects: seq<Effect>)
    ensures Trim(name) == [] ==> effects == [NameMissingAlert]
    ensures Trim(name) != [] && backend.auth == SignedOut ==>
      effects == [ShowAlert("Niet ingelogd", "Log in om een plant toe te voegen.")]
    ensures Trim(name) != [] && backend.auth.AuthFailed? ==> effects == [CatchAlert(backend.auth.error)]
  {
    if Trim(name) == [] then [NameMissingAlert]
    else
      match backend.auth
      case AuthFailed(e) => [CatchAlert(e)]
      case SignedOut => [ShowAlert("Niet ingelogd", "Log in om een plant toe te voegen.")]
      case SignedIn(userId) => SubmitSignedIn(userId, CreatePlants(SubmittedForm(name, species, location)), frequentie, backend)
  }

  /**
   After the screen's own name guard, the library's "Name is required" check
   can never fire; the library rejects the form exactly when the slug is empty.
   */
  lemma ScreenGuardSubsumesNameCheck(name: string, species: string, location: string)
    requires Trim(name) != []
    ensures CreatePlants(SubmittedForm(name, species, location)) != Err(ErrorObject(NameRequired))
    ensures CreatePlants(SubmittedForm(name, species, location)).Err? <==> Slugify(name) == []
    ensures CreatePlants(SubmittedForm(name, species, location)).Ok? ==>
      CreatePlants(SubmittedForm(name, species, location)).value
        == PlantInsert(Trim(name), Slugify(name), Trim(species), Trim(location))
  {
    TrimIdempotent(name);
    TrimIdempotent(species);
    TrimIdempotent(location);
    SlugIsTrimmed(name);
  }

  /** A name of punctuation only passes the screen's guard but fails the library's slug check. */
  lemma EmptySlugIsReported(name: string, species: string, location: string,
                            frequentie: CareFrequentie, backend: Backend)
    requires Trim(name) != [] && Slugify(name) == []
    requires backend.auth.SignedIn?
    ensures OnSubmit(name, species, location, frequentie, backend) == [ShowAlert("Error", SlugRequired)]
  {
    var created := CreatePlants(SubmittedForm(name, species, location));
    assert created == Err(ErrorObject(SlugRequired)) by {
      ScreenGuardSubsumesNameCheck(name, species, location);
      TrimIdempotent(name);
    }
    OnSubmitSignedIn(name, species, location, frequentie, backend, backend.auth.userId);
    assert CatchAlert(ErrorObject(SlugRequired)) == ShowAlert("Error", SlugRequired) by {
      SlugRequiredIsNotDuplicate();
    }
  }

  /** A signed-in submit of a non-blank name is the signed-in part applied to what `createPlants` returns. */
  lemma OnSubmitSignedIn(name: string, species: string, location: string,
                         frequentie: CareFrequentie, backend: Backend, userId: string)
    requires Trim(name) != [] && backend.auth == SignedIn(userId)
    ensures OnSubmit(name, species, location, frequentie, backend)
      == SubmitSignedIn(userId, CreatePlants(SubmittedForm(name, species, location)), frequentie, backend)
  {
  }

  /** Once the library accepts the form and the store takes the row, the later steps decide the rest. */
  lemma SubmitAfterInsert(name: string, species: string, location: string,
                          frequentie: CareFrequentie, backend: Backend, row: PlantInsert)
    requires Trim(name) != []
    requires CreatePlants(SubmittedForm(name, species, location)) == Ok(row)
    requires backend.auth.SignedIn? && backend.plantInsertError == None
    ensures OnSubmit(name, species, location, frequentie, backend)
      == [InsertPlant(row)] + AfterPlantInsert(backend.auth.userId, frequentie, backend)
  {
    OnSubmitSignedIn(name, species, location, frequentie, backend, backend.auth.userId);
    assert SubmitSignedIn(backend.auth.userId, Ok(row), frequentie, backend)
      == [InsertPlant(row)] + AfterPlantInsert(backend.auth.userId, frequentie, backend);
  }

  /** When the store rejects the plant row, its message is wrapped and caught; nothing else is written. */
  lemma SubmitInsertRejected(name: string, species: string, location: string,
                             frequentie: CareFrequentie, backend: Backend, row: PlantInsert)
    requires Trim(name) != []
    requires CreatePlants(SubmittedForm(name, species, location)) == Ok(row)
    requires backend.auth.SignedIn? && backend.plantInsertError != None
    ensures OnSubmit(name, species, location, frequentie, backend)
      == [InsertPlant(row), CatchAlert(ErrorObject("Failed to create plant: " + backend.plantInsertError.value))]
  {
    var alert := CatchAlert(ErrorObject("Failed to create plant: " + backend.plantInsertError.value));
    OnSubmitSignedIn(name, species, location, frequentie, backend, backend.auth.userId);
    assert SubmitSignedIn(backend.auth.userId, Ok(row), frequentie, backend) == [InsertPlant(row)] + [alert];
    PrependToOne(InsertPlant(row), [alert]);
  }

  /** With no remote failure, the steps after the plant insert are the link, the first task, the alert and back. */
  lemma AllStepsSucceed(userId: string, frequentie: CareFrequentie, backend: Backend)
    requires backend.userPlantError == None && backend.firstTaskError == None
    ensures AfterPlantInsert(userId, frequentie, backend) == [
      InsertUserPlant(userId, ToDb(frequentie)),
      InsertFirstCareTask,
      ShowAlert("Success", "Plant is aangemaakt! Verzorging: " + Label(frequentie)),
      GoBack]
  {
  }

  /** When every remote step succeeds: plant, user plant, first task, success alert, back. */
  lemma SuccessfulSubmit(name: string, species: string, location: string,
                         frequentie: CareFrequentie, backend: Backend)
    requires Slugify(name) != []
    requires backend.auth.SignedIn?
    requires backend.plantInsertError == None && backend.userPlantError == None
    requires backend.firstTaskError == None
    ensures OnSubmit(name, species, location, frequentie, backend) == [
      InsertPlant(PlantInsert(Trim(name), Slugify(name), Trim(species), Trim(location))),
      InsertUserPlant(backend.auth.userId, ToDb(frequentie)),
      InsertFirstCareTask,
      ShowAlert("Success", "Plant is aangemaakt! Verzorging: " + Label(frequentie)),
      GoBack]
  {
    SlugOfBlankName(name);
    ScreenGuardSubsumesNameCheck(name, species, location);
    var row := CreatePlants(SubmittedForm(name, species, location)).value;
    var after := AfterPlantInsert(backend.auth.userId, frequentie, backend);
    SubmitAfterInsert(name, species, location, frequentie, backend, row);
    AllStepsSucceed(backend.auth.userId, frequentie, backend);
    PrependToFour(InsertPlant(row), after);
  }

  /**
   A store rejection that mentions a duplicate, once wrapped by `createPlants`,
   still takes the "Bestaat al" branch, and nothing after the plant insert runs.
   */
  lemma DuplicatePlantIsReported(name: string, species: string, location: string,
                                 frequentie: CareFrequentie, backend: Backend)
    requires Slugify(name) != []
    requires backend.auth.SignedIn?
    requires backend.plantInsertError.Some? && IsDuplicateMessage(backend.plantInsertError.value)
    ensures OnSubmit(name, species, location, frequentie, backend) == [
      InsertPlant(PlantInsert(Trim(name), Slugify(name), Trim(species), Trim(location))),
      ShowAlert("Bestaat al", "Deze plant is al toegevoegd.")]
  {
    SlugOfBlankName(name);
    ScreenGuardSubsumesNameCheck(name, species, location);
    var row := CreatePlants(SubmittedForm(name, species, location)).value;
    SubmitInsertRejected(name, species, location, frequentie, backend, row);
    DuplicateSurvivesPrefix("Failed to create plant: ", backend.plantInsertError.value);
  }

  /** Without a non-blank name and a signed-in user, the handler writes nothing. */
  lemma NoWritesWithoutNameOrUser(name: string, species: string, location: string,
                                  frequentie: CareFrequentie, backend: Backend)
    requires Trim(name) == [] || !backend.auth.SignedIn?
    ensures NoWrites(OnSubmit(name, species, location, frequentie, backend))
  {
  }

  /**
   The only plant row the handler ever inserts is the one `createPlants`
   accepts for the submitted form, and it is inserted first.
   */
  lemma OnlyTheAcceptedRowIsInserted(name: string, species: string, location: string,
                                     frequentie: CareFrequentie, backend: Backend, i: int)
    requires 0 <= i < |OnSubmit(name, species, location, frequentie, backend)|
    requires OnSubmit(name, species, location, frequentie, backend)[i].InsertPlant?
    ensures i == 0
    ensures CreatePlants(SubmittedForm(name, species, location))
      == Ok(OnSubmit(name, species, location, frequentie, backend)[i].inserted)
  {
    if Trim(name) != [] && backend.auth.SignedIn? {
      OnSubmitSignedIn(name, species, location, frequentie, backend, backend.auth.userId);
    }
  }

  /**
   The handler goes back exactly when the name has a non-empty slug, a user
   is signed in and every remote step succeeds.
   */
  lemma GoesBackIffEveryStepSucceeds(name: string, species: string, location: string,
                                     frequentie: CareFrequentie, backend: Backend)
    ensures var effects := OnSubmit(name, species, location, frequentie, backend);
      effects != [] &&
      (effects[|effects| - 1] == GoBack <==>
        && Slugify(name) != []
        && backend.auth.SignedIn?
        && backend.plantInsertError == None
        && backend.userPlantError == None
        && backend.firstTaskError == None)
  {
    SlugOfBlankName(name);
    if Trim(name) != [] && backend.auth.SignedIn? {
      ScreenGuardSubsumesNameCheck(name, species, location);
      OnSubmitSignedIn(name, species, location, frequentie, backend, backend.auth.userId);
    }
  }
}
