/**
 What a screen handler does, as an ordered list of effects: alerts shown,
 rows sent to the store, and navigation. The store's answers are inputs to
 the handlers rather than calls.
 */
module Screens {
  import opened Text
  import opened Slug
  import opened Frequency
  import opened Plants

  datatype Effect =
    | ShowAlert(title: string, message: string)
    | InsertPlant(inserted: PlantInsert)                         // `createPlants` reaches the insert
    | InsertUserPlant(userId: string, frequency: CareFrequencyDb) // `createUserPlant`
    | InsertFirstCareTask                                         // `createFirstCareTask`
    | UpdatePlantRow(plantId: string, update: PlantUpdate)       // `updatePlant` reaches the update
    | GoBack                                                      // `router.back()`
    | ReplaceRoute(path: string)                                  // `router.replace(path)`

  /** An effect that sends a write to the store. */
  predicate IsWrite(e: Effect) {
    e.InsertPlant? || e.InsertUserPlant? || e.InsertFirstCareTask? || e.UpdatePlantRow?
  }

  predicate NoWrites(effects: seq<Effect>) {
    forall i :: 0 <= i < |effects| ==> !IsWrite(effects[i])
  }

  /** The alert both screens show for a name that is empty after trimming. */
  const NameMissingAlert: Effect := ShowAlert("Naam is verplicht", "Vul een naam in.")

  /** The form data both screens send: the trimmed fields and the slug of the untrimmed name. */
  function SubmittedForm(name: string, species: string, location: string): Form {
    FormOf(Trim(name), Slugify(name), Trim(species), Trim(location))
  }

  /** Every field the screens send is present and already trimmed, so the library's own trim changes nothing. */
  lemma SubmittedFieldsAreTrimmed(name: string, species: string, location: string)
    ensures var form := SubmittedForm(name, species, location);
      && form.name.Some? && form.slug.Some? && form.species.Some? && form.location.Some?
      && Trim(form.name.value) == form.name.value
      && Trim(form.slug.value) == form.slug.value
      && Trim(form.species.value) == form.species.value
      && Trim(form.location.value) == form.location.value
  {
    TrimIdempotent(name);
    TrimIdempotent(species);
    TrimIdempotent(location);
    SlugIsTrimmed(name);
  }

  /**
   Sequence facts about effect lists built as `[first] + rest`. They state
   nothing about the screens; the screen proofs call them so that the solver
   need not rediscover them in a large context.
   */
  lemma PrependToOne<T>(x: T, xs: seq<T>)
    requires |xs| == 1
    ensures [x] + xs == [x, xs[0]]
  {
  }

  lemma PrependToFour<T>(x: T, xs: seq<T>)
    requires |xs| == 4
    ensures [x] + xs == [x, xs[0], xs[1], xs[2], xs[3]]
  {
  }
}
