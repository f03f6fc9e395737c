/**
 The "edit plant" screen: load the plant named by the route's slug into the
 form, and on submit guard the name, update the row through `updatePlant`,
 and navigate to the plant's (possibly new) slug.
 */
module BewerkenScreen {
  import opened Text
  import opened Results
  import opened Errors
  import opened Slug
  import opened Plants
  import opened Screens

  /** The `plants` row `getPlantBySlug` returns; the store may hold `null` in its text columns. */
  datatype StoredPlant = StoredPlant(id: string, name: Option<string>, species: Option<string>, location: Option<string>)

  /** The screen's state: the loaded plant, if any, and the three text inputs. */
  datatype EditForm = EditForm(plant: Option<StoredPlant>, name: string, species: string, location: string)

  /** The state before anything is loaded. */
  const Initial: EditForm := EditForm(None, "", "", "")

  /** The state after the load effect, with the effects it caused. */
  datatype Loaded = Loaded(form: EditForm, effects: seq<Effect>)

  const NotFoundAlert: Effect := ShowAlert("Niet gevonden", "Deze plant bestaat niet.")

  /**
   The load effect. `routeSlug` is the route parameter and `data` the store's
   answer to `getPlantBySlug` for it (`None` when no row matches or the read
   fails).
   */
  function OnLoad(form: EditForm, routeSlug: Option<string>, data: Option<StoredPlant>): (r: Loaded)
    ensures NoWrites(r.effects)
    ensures routeSlug == None || routeSlug == Some([]) ==> r == Loaded(form, [])
    ensures routeSlug != None && routeSlug != Some([]) && data == None ==> r == Loaded(form, [NotFoundAlert, GoBack])
    ensures routeSlug != None && routeSlug != Some([]) && data != None ==>
      && r.effects == []
      && r.form.plant == data
      && r.form.name == NullToEmpty(data.value.name)
      && r.form.species == NullToEmpty(data.value.species)
      && r.form.location == NullToEmpty(data.value.location)
  {
    match routeSlug
    case None => Loaded(form, [])
    case Some(slug) =>
      if slug == [] then Loaded(form, [])
      else
        match data
        case None => Loaded(form, [NotFoundAlert, GoBack])
        case Some(p) => Loaded(EditForm(Some(p), NullToEmpty(p.name), NullToEmpty(p.species), NullToEmpty(p.location)), [])
  }

  /** The route of a plant's detail screen. */
  function DetailRoute(slug: string): string {
    "/planten/" + slug
  }

  /** Distinct slugs lead to distinct detail routes, so the route names the plant just saved. */
  lemma DetailRouteDeterminesSlug(a: string, b: string)
    ensures DetailRoute(a) == DetailRoute(b) <==> a == b
  {
    assert DetailRoute(a)[9..] == a;
    assert DetailRoute(b)[9..] == b;
  }

  /**
   The part of `onSubmit` after both guards: `updatePlant` either throws
   before writing or sends its row, and the store's answer decides the rest.
   `updateError` is the message of the error the store returns, if any.
   */
  function SubmitLoaded(id: string, updated: Result<PlantUpdate, Thrown>, slug: string,
                        updateError: Option<string>): (effects: seq<Effect>)
    ensures updated.Err? ==> effects == [ShowAlert("Error", GetErrorMessage(updated.error))]
    ensures updated.Ok? ==> |effects| >= 2 && effects[0] == UpdatePlantRow(id, updated.value)
    ensures forall i :: 0 < i < |effects| ==> !IsWrite(effects[i])
    ensures effects[|effects| - 1].ReplaceRoute? <==> updated.Ok? && updateError == None
    ensures effects[|effects| - 1].ReplaceRoute? ==> effects[|effects| - 1].path == DetailRoute(slug)
    ensures updated.Ok? && updateError == None ==>
      effects == [UpdatePlantRow(id, updated.value), ShowAlert("Success", "Plant is bijgewerkt!"), ReplaceRoute(DetailRoute(slug))]
  {
    match updated
    case Err(e) => [ShowAlert("Error", GetErrorMessage(e))]
    case Ok(row) =>
      [UpdatePlantRow(id, row)] +
      match updateError
      case Some(m) => [ShowAlert("Error", GetErrorMessage(ErrorObject("Failed to update plant: " + m)))]
      case None => [ShowAlert("Success", "Plant is bijgewerkt!"), ReplaceRoute(DetailRoute(slug))]
  }

  /** `onSubmit` with the screen's current state. */
  function OnSubmit(form: EditForm, updateError: Option<string>): (effects: seq<Effect>)
    ensures Trim(form.name) == [] ==> effects == [NameMissingAlert]
    ensures Trim(form.name) != [] && form.plant == None ==> effects == []
  {
    if Trim(form.name) == [] then [NameMissingAlert]
    else if form.plant == None then []
    else
      SubmitLoaded(form.plant.value.id, UpdatePlant(SubmittedForm(form.name, form.species, form.location)),
                   Slugify(form.name), updateError)
  }

  /** With a non-blank name and a loaded plant, submitting is the post-guard part applied to `updatePlant`. */
  lemma OnSubmitLoaded(form: EditForm, updateError: Option<string>)
    requires Trim(form.name) != [] && form.plant != None
    ensures OnSubmit(form, updateError) ==
      SubmitLoaded(form.plant.value.id, UpdatePlant(SubmittedForm(form.name, form.species, form.location)),
                   Slugify(form.name), updateError)
  {
  }

  /**
   After the screen's name guard, `updatePlant` rejects the form only for an
   empty slug, and otherwise writes the trimmed name, the slug, and the
   trimmed species and location with "" turned into `null`.
   */
  lemma UpdateAfterGuard(name: string, species: string, location: string)
    requires Trim(name) != []
    ensures UpdatePlant(SubmittedForm(name, species, location)) != Err(ErrorObject(NameRequired))
    ensures UpdatePlant(SubmittedForm(name, species, location)).Err? <==> Slugify(name) == []
    ensures UpdatePlant(SubmittedForm(name, species, location)).Ok? ==>
      UpdatePlant(SubmittedForm(name, species, location)).value
        == PlantUpdate(Trim(name), Slugify(name), EmptyToNull(Trim(species)), EmptyToNull(Trim(location)))
  {
    TrimIdempotent(name);
    TrimIdempotent(species);
    TrimIdempotent(location);
    SlugIsTrimmed(name);
  }

  /** A blank name never reaches `updatePlant`: nothing is written. */
  lemma BlankNameWritesNothing(form: EditForm, updateError: Option<string>)
    requires Trim(form.name) == []
    ensures NoWrites(OnSubmit(form, updateError))
  {
  }

  /**
   The only row ever written is the one `updatePlant` accepts for the form,
   for the loaded plant's id, as the first effect.
   */
  lemma OnlyTheLoadedPlantIsUpdated(form: EditForm, updateError: Option<string>, i: int)
    requires 0 <= i < |OnSubmit(form, updateError)|
    requires IsWrite(OnSubmit(form, updateError)[i])
    ensures i == 0 && form.plant != None
    ensures OnSubmit(form, updateError)[i].UpdatePlantRow?
    ensures OnSubmit(form, updateError)[i].plantId == form.plant.value.id
    ensures UpdatePlant(SubmittedForm(form.name, form.species, form.location))
      == Ok(OnSubmit(form, updateError)[i].update)
  {
    if Trim(form.name) != [] && form.plant != None {
      OnSubmitLoaded(form, updateError);
    }
  }

  /**
   The screen navigates exactly when a plant is loaded, the name has a
   non-empty slug and the store accepts the update; the target is the detail
   route of the slug just written, which is the slug of the current name.
   */
  lemma NavigatesToNewSlug(form: EditForm, updateError: Option<string>)
    ensures var effects := OnSubmit(form, updateError);
      (effects != [] && effects[|effects| - 1].ReplaceRoute?) <==>
        form.plant != None && Slugify(form.name) != [] && updateError == None
    ensures var effects := OnSubmit(form, updateError);
      effects != [] && effects[|effects| - 1].ReplaceRoute? ==>
        && effects[0].UpdatePlantRow?
        && effects[|effects| - 1].path == DetailRoute(Slugify(form.name))
        && effects[|effects| - 1].path == DetailRoute(effects[0].update.slug)
  {
    SlugOfBlankName(form.name);
    if Trim(form.name) != [] && form.plant != None {
      UpdateAfterGuard(form.name, form.species, form.location);
      OnSubmitLoaded(form, updateError);
    }
  }

  /** A store rejection is reported with the wrapped message, after the attempted write. */
  lemma RejectedUpdateIsReported(form: EditForm, m: string)
    requires form.plant != None && Slugify(form.name) != []
    ensures OnSubmit(form, Some(m)) == [
      UpdatePlantRow(form.plant.value.id,
        PlantUpdate(Trim(form.name), Slugify(form.name), EmptyToNull(Trim(form.species)), EmptyToNull(Trim(form.location)))),
      ShowAlert("Error", "Failed to update plant: " + m)]
  {
    SlugOfBlankName(form.name);
    UpdateAfterGuard(form.name, form.species, form.location);
    OnSubmitLoaded(form, Some(m));
    var row := UpdatePlant(SubmittedForm(form.name, form.species, form.location)).value;
    var alert := ShowAlert("Error", "Failed to update plant: " + m);
    assert SubmitLoaded(form.plant.value.id, Ok(row), Slugify(form.name), Some(m))
      == [UpdatePlantRow(form.plant.value.id, row)] + [alert];
    PrependToOne(UpdatePlantRow(form.plant.value.id, row), [alert]);
  }

  /** A stored plant without a name loads as "", so it cannot be saved until a name is typed. */
  lemma NullNameBlocksSave(p: StoredPlant, routeSlug: string, updateError: Option<string>)
    requires routeSlug != [] && p.name == None
    ensures OnSubmit(OnLoad(Initial, Some(routeSlug), Some(p)).form, updateError) == [NameMissingAlert]
  {
    assert OnLoad(Initial, Some(routeSlug), Some(p)).form.name == [];
  }

  /**
   Loading a plant and saving it without edits keeps a `null` species or
   location `null`, and writes a trimmed non-empty one back unchanged.
   */
  lemma LoadThenSaveKeepsOptionalFields(p: StoredPlant, routeSlug: string, updateError: Option<string>)
    requires routeSlug != [] && p.name != None && Slugify(p.name.value) != []
    ensures var effects := OnSubmit(OnLoad(Initial, Some(routeSlug), Some(p)).form, updateError);
      && effects != []
      && effects[0].UpdatePlantRow?
      && effects[0].plantId == p.id
      && (p.species == None ==> effects[0].update.species == None)
      && (p.location == None ==> effects[0].update.location == None)
      && (p.species != None && p.species.value != [] && Trim(p.species.value) == p.species.value ==>
            effects[0].update.species == p.species)
      && (p.location != None && p.location.value != [] && Trim(p.location.value) == p.location.value ==>
            effects[0].update.location == p.location)
  {
    var form := OnLoad(Initial, Some(routeSlug), Some(p)).form;
    assert form == EditForm(Some(p), p.name.value, NullToEmpty(p.species), NullToEmpty(p.location));
    SlugOfBlankName(form.name);
    UpdateAfterGuard(form.name, form.species, form.location);
    OnSubmitLoaded(form, updateError);
  }
}
