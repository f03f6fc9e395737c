/**
 The field handling of `createPlants` and `updatePlant` in the plant library:
 read four form fields, trim them, reject a missing name and then a missing
 slug, and build the row that is written to the `plants` table.
 */
module Plants {
  import opened Text
  import opened Results
  import opened Errors

  /**
   The submitted form data: the four fields the library reads, each `null`
   when it was never appended.
   */
  datatype Form = Form(name: Option<string>, slug: Option<string>, species: Option<string>, location: Option<string>)

  /** `value ?? ""`: a missing value reads as the empty string. */
  function NullToEmpty(value: Option<string>): (r: string)
    ensures value == None ==> r == []
    ensures value != None ==> r == value.value
  {
    match value
    case None => ""
    case Some(v) => v
  }

  const NameRequired: string := "Name is required"
  const SlugRequired: string := "Slug is required"

  /** The row `createPlants` inserts: empty optional fields stay "". */
  datatype PlantInsert = PlantInsert(name: string, slug: string, species: string, location: string)

  /** The row `updatePlant` writes: empty optional fields become `null`. */
  datatype PlantUpdate = PlantUpdate(name: string, slug: string, species: Option<string>, location: Option<string>)

  /** `value || null` on a string. */
  function EmptyToNull(value: string): (r: Option<string>)
    ensures r == None <==> value == []
    ensures r != None ==> r.value == value
  {
    if value == [] then None else Some(value)
  }

  /** The two checks both functions run, in order: name first, then slug. */
  function Validate(form: Form): (r: Option<Thrown>)
    ensures r == Some(ErrorObject(NameRequired)) <==> Trim(NullToEmpty(form.name)) == []
    ensures r == Some(ErrorObject(SlugRequired)) <==>
      Trim(NullToEmpty(form.name)) != [] && Trim(NullToEmpty(form.slug)) == []
    ensures r == None <==> Trim(NullToEmpty(form.name)) != [] && Trim(NullToEmpty(form.slug)) != []
  {
    if Trim(NullToEmpty(form.name)) == [] then Some(ErrorObject(NameRequired))
    else if Trim(NullToEmpty(form.slug)) == [] then Some(ErrorObject(SlugRequired))
    else None
  }

  /** The validation and row-building part of `createPlants`. */
  function CreatePlants(form: Form): (r: Result<PlantInsert, Thrown>)
    ensures r.Err? <==> Validate(form) != None
    ensures r.Err? ==> Some(r.error) == Validate(form)
    ensures r.Ok? ==> r.value.name != [] && r.value.slug != []
    ensures r.Ok? ==> (
      && r.value.name == Trim(NullToEmpty(form.name))
      && r.value.slug == Trim(NullToEmpty(form.slug))
      && r.value.species == Trim(NullToEmpty(form.species))
      && r.value.location == Trim(NullToEmpty(form.location)))
  {
    match Validate(form)
    case Some(e) => Err(e)
    case None =>
      Ok(PlantInsert(
        Trim(NullToEmpty(form.name)), Trim(NullToEmpty(form.slug)),
        Trim(NullToEmpty(form.species)), Trim(NullToEmpty(form.location))))
  }

  /** The validation and row-building part of `updatePlant`. */
  function UpdatePlant(form: Form): (r: Result<PlantUpdate, Thrown>)
    ensures r.Err? <==> Validate(form) != None
    ensures r.Err? ==> Some(r.error) == Validate(form)
    ensures r.Ok? ==> r.value.name != [] && r.value.slug != []
    ensures r.Ok? ==> (
      && r.value.name == Trim(NullToEmpty(form.name))
      && r.value.slug == Trim(NullToEmpty(form.slug))
      && r.value.species == EmptyToNull(Trim(NullToEmpty(form.species)))
      && r.value.location == EmptyToNull(Trim(NullToEmpty(form.location))))
  {
    match Validate(form)
    case Some(e) => Err(e)
    case None =>
      Ok(PlantUpdate(
        Trim(NullToEmpty(form.name)), Trim(NullToEmpty(form.slug)),
        EmptyToNull(Trim(NullToEmpty(form.species))), EmptyToNull(Trim(NullToEmpty(form.location)))))
  }

  /**
   `updatePlant` accepts and rejects exactly the forms `createPlants` does,
   with the same error, and writes the same row except that an empty species
   or location becomes `null` instead of "".
   */
  lemma UpdateAgreesWithCreate(form: Form)
    ensures UpdatePlant(form).Err? == CreatePlants(form).Err?
    ensures UpdatePlant(form).Err? ==> UpdatePlant(form).error == CreatePlants(form).error
    ensures UpdatePlant(form).Ok? ==>
      var c := CreatePlants(form).value;
      UpdatePlant(form).value == PlantUpdate(c.name, c.slug, EmptyToNull(c.species), EmptyToNull(c.location))
  {
  }

  /** The form a row is submitted from: its four values under their field names. */
  function FormOf(name: string, slug: string, species: string, location: string): Form {
    Form(Some(name), Some(slug), Some(species), Some(location))
  }

  /** Submitting the values of an inserted row again yields the same row. */
  lemma CreateRoundTrip(form: Form)
    requires CreatePlants(form).Ok?
    ensures var row := CreatePlants(form).value;
      CreatePlants(FormOf(row.name, row.slug, row.species, row.location)) == Ok(row)
  {
    TrimIdempotent(NullToEmpty(form.name));
    TrimIdempotent(NullToEmpty(form.slug));
    TrimIdempotent(NullToEmpty(form.species));
    TrimIdempotent(NullToEmpty(form.location));
  }

  /**
   Loading an updated row into the form and submitting it unchanged writes the
   same row: `null` reads back as "" and is written as `null` again.
   */
  lemma UpdateRoundTrip(form: Form)
    requires UpdatePlant(form).Ok?
    ensures var row := UpdatePlant(form).value;
      UpdatePlant(FormOf(row.name, row.slug, NullToEmpty(row.species), NullToEmpty(row.location))) == Ok(row)
  {
    TrimIdempotent(NullToEmpty(form.name));
    TrimIdempotent(NullToEmpty(form.slug));
    TrimIdempotent(NullToEmpty(form.species));
    TrimIdempotent(NullToEmpty(form.location));
  }
}
