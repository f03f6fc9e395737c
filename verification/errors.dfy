/**
 What the plant screens do with a caught exception: turn it into a message
 (`getErrorMessage`) and, on the "new plant" screen, recognise a duplicate.
 */
module Errors {
  import opened Text

  /** A value reaching `catch (e: unknown)`. */
  datatype Thrown =
    | ErrorObject(message: string)  // an `Error` instance
    | StringValue(text: string)     // a thrown string
    | OtherValue                    // anything else

  const Fallback: string := "Er ging iets mis."

  /**
   `getErrorMessage`: an `Error` shows its message, a thrown string shows
   itself, anything else shows the fixed Dutch fallback.
   */
  function GetErrorMessage(e: Thrown): (msg: string)
    ensures e.ErrorObject? ==> msg == e.message
    ensures e.StringValue? ==> msg == e.text
    ensures e.OtherValue? ==> msg == Fallback
  {
    match e
    case ErrorObject(m) => m
    case StringValue(t) => t
    case OtherValue => Fallback
  }

  /** The substrings that mark a uniqueness violation, matched case-insensitively. */
  const DuplicateMarkers: seq<string> := ["duplicate", "already exists", "unique"]

  /** The test `msg.toLowerCase().includes(...)` on the three markers, in source order. */
  predicate IsDuplicateMessage(msg: string) {
    var lowered := Lower(msg);
    Contains(lowered, "duplicate") || Contains(lowered, "already exists") || Contains(lowered, "unique")
  }

  /** The duplicate test holds exactly when some marker occurs somewhere in the lower-cased message. */
  lemma DuplicateIffMarkerOccurs(msg: string)
    ensures IsDuplicateMessage(msg) <==>
      exists m, i :: m in DuplicateMarkers && OccursAt(Lower(msg), m, i)
  {
    var lowered := Lower(msg);
    ContainsIffOccurs(lowered, "duplicate");
    ContainsIffOccurs(lowered, "already exists");
    ContainsIffOccurs(lowered, "unique");
    if exists m, i :: m in DuplicateMarkers && OccursAt(lowered, m, i) {
      var m, i :| m in DuplicateMarkers && OccursAt(lowered, m, i);
      assert m == "duplicate" || m == "already exists" || m == "unique";
    }
  }

  lemma {:induction false} OccursAfterPrefix(p: string, s: string, t: string, i: int)
    requires OccursAt(s, t, i)
    ensures OccursAt(p + s, t, |p| + i)
  {
    assert (p + s)[|p| + i..|p| + i + |t|] == s[i..i + |t|];
  }

  /**
   Prefixing a message keeps it a duplicate: `createPlants` wraps the store's
   message as "Failed to create plant: ...", and the wrapped text is still
   recognised.
   */
  lemma DuplicateSurvivesPrefix(prefix: string, msg: string)
    requires IsDuplicateMessage(msg)
    ensures IsDuplicateMessage(prefix + msg)
  {
    DuplicateIffMarkerOccurs(msg);
    var m, i :| m in DuplicateMarkers && OccursAt(Lower(msg), m, i);
    LowerAppend(prefix, msg);
    OccursAfterPrefix(Lower(prefix), Lower(msg), m, i);
    DuplicateIffMarkerOccurs(prefix + msg);
  }

  /** Case does not matter to the duplicate test. */
  lemma DuplicateIgnoresCase(msg: string)
    ensures IsDuplicateMessage(Lower(msg)) == IsDuplicateMessage(msg)
  {
    LowerIdempotent(msg);
  }

  lemma PostgresUniqueViolationExample()
    ensures IsDuplicateMessage("Duplicate key")
  {
    assert Lower("Duplicate key")[..9] == "duplicate";
  }

  /** Lower-casing the two validation messages touches only their first letter. */
  lemma ValidationMessagesLowered()
    ensures Lower("Name is required") == "name is required"
    ensures Lower("Slug is required") == "slug is required"
  {
    var name := "name is required";
    forall i | 0 <= i < |name|
      ensures Lower("Name is required")[i] == name[i]
    {
    }
    var slug := "slug is required";
    forall i | 0 <= i < |slug|
      ensures Lower("Slug is required")[i] == slug[i]
    {
    }
  }

  /*
   The two lemmas below rule each marker out by one of its columns: for the
   marker's k-th character c, no start position i puts c at s[i + k]. The
   start positions run from 0 to |s| - |t|, so the indices checked run from k
   to |s| - |t| + k, and the bound passed is one past that. For example,
   "already exists" (14 characters) can start at 0, 1 or 2 in the 16
   characters of "name is required"; its 'l' would be at index 1, 2 or 3, and
   none of those holds an 'l', so the bound is 4.
   */
  lemma NoMarkerInNameRequired()
    ensures !Contains("name is required", "duplicate")
    ensures !Contains("name is required", "already exists")
    ensures !Contains("name is required", "unique")
  {
    NotContainsByColumn("name is required", "duplicate", 2, 'p', 10);
    NotContainsByColumn("name is required", "already exists", 1, 'l', 4);
    NotContainsByColumn("name is required", "unique", 0, 'u', 11);
  }

  lemma NoMarkerInSlugRequired()
    ensures !Contains("slug is required", "duplicate")
    ensures !Contains("slug is required", "already exists")
    ensures !Contains("slug is required", "unique")
  {
    NotContainsByColumn("slug is required", "duplicate", 2, 'p', 10);
    NotContainsByColumn("slug is required", "already exists", 0, 'a', 3);
    NotContainsByColumn("slug is required", "unique", 1, 'n', 12);
  }

  /** The validation errors of `createPlants` never read as duplicates. */
  lemma NameRequiredIsNotDuplicate()
    ensures !IsDuplicateMessage("Name is required")
  {
    ValidationMessagesLowered();
    NoMarkerInNameRequired();
  }

  lemma SlugRequiredIsNotDuplicate()
    ensures !IsDuplicateMessage("Slug is required")
  {
    ValidationMessagesLowered();
    NoMarkerInSlugRequired();
  }
}
