/**
 * The state of the vote screen and its handlers: the form fields, the
 * ratings object, the set of omitted categories, the preview average and the
 * error message. Each handler updates these in place.
 */
module VoteScreen {
  import opened Wrappers
  import opened Ratings
  import opened Submission
  import Preview
  import Paste
  import Catalog

  /** The `name` attribute of the three text inputs. */
  datatype FormField = Name | City | Address

  class VoteForm {
    var form: PlaceFields
    var ratings: Entries
    var omitted: set<string>
    var average: real
    var errorMessage: string

    /** Rated keys and omitted ids are disjoint subsets of the catalog ids. */
    ghost predicate Valid()
      reads this
    {
      Consistent(ratings, omitted)
    }

    /** The initial state: empty fields, no ratings, nothing omitted, preview 0, no message. */
    constructor ()
      ensures Valid()
      ensures form == PlaceFields("", "", "") && ratings == [] && omitted == {}
      ensures average == 0.0 && errorMessage == ""
    {
      form := PlaceFields("", "", "");
      ratings := [];
      omitted := {};
      average := 0.0;
      errorMessage := "";
    }

    /** `handleFormChange`: one field takes the typed value, the other two keep theirs. */
    method HandleFormChange(field: FormField, value: string)
      modifies this`form
      ensures form == match field
                      case Name => old(form).(name := value)
                      case City => old(form).(city := value)
                      case Address => old(form).(address := value)
    {
      match field
      case Name => form := form.(name := value);
      case City => form := form.(city := value);
      case Address => form := form.(address := value);
    }

    /**
     * `handlePasteData`: an accepted paste replaces all three fields; a
     * rejected one leaves the form as it was (and the caller alerts).
     */
    method HandlePasteData(text: string) returns (accepted: bool)
      modifies this`form
      ensures accepted <==> Paste.ParsePaste(text).Some?
      ensures accepted ==> form == Paste.ParsePaste(text).value && FieldsFilled(form)
      ensures !accepted ==> form == old(form)
    {
      var parsed := Paste.ParsePaste(text);
      accepted := parsed.Some?;
      if accepted {
        Paste.AcceptedPasteShape(text);
        form := parsed.value;
      }
    }

    /** `omittedCategories.delete(key)` when the key is omitted: the set is changed in place. */
    method ClearOmission(key: string)
      modifies this`omitted
      ensures omitted == old(omitted) - {key}
    {
      if key in omitted {
        omitted := omitted - {key};
      }
    }

    /**
     * `handleVoteChange(key, value)`: the omission of `key` is cleared in
     * place, the rating is stored, and the preview is recomputed from the
     * updated ratings and the already updated omitted set, so the new rating
     * always contributes. A catalog key keeps the form consistent.
     */
    method HandleVoteChange(key: string, value: int)
      modifies this`ratings, this`omitted, this`average
      ensures ratings == Put(old(ratings), key, value)
      ensures omitted == old(omitted) - {key}
      ensures average == Preview.Average(ratings, omitted)
      ensures Entry(key, value) in Preview.Contributing(ratings, omitted)
      ensures old(Valid()) && key in Catalog.IdSet() ==> Valid()
    {
      ghost var before, omittedBefore := ratings, omitted;
      ClearOmission(key);
      var updatedRatings := Put(ratings, key, value);
      ratings := updatedRatings;
      average := Preview.Average(updatedRatings, omitted);
      assert omitted == omittedBefore - {key};
      assert Entry(key, value) in Preview.Contributing(ratings, omitted) by {
        Preview.RatedCategoryContributes(before, omittedBefore, key, value);
      }
      assert Consistent(before, omittedBefore) && key in Catalog.IdSet() ==> Consistent(ratings, omitted) by {
        if Consistent(before, omittedBefore) && key in Catalog.IdSet() {
          RatePreservesConsistency(before, omittedBefore, key, value);
        }
      }
    }

    /**
     * The synchronous part of `handleSubmit`: a rejection sets the matching
     * message and sends nothing; an acceptance yields the place fields and the
     * payload to send, which from a consistent form is complete.
     */
    method HandleSubmit() returns (outcome: Result<Payload, SubmitError>)
      modifies this`errorMessage
      ensures outcome == Submit(form, ratings, omitted)
      ensures outcome.Err? ==> errorMessage == Message(outcome.error)
      ensures outcome.Ok? ==> errorMessage == old(errorMessage)
      ensures Valid() && outcome.Ok? ==> Answered(ratings, omitted)
    {
      outcome := Submit(form, ratings, omitted);
      if outcome.Err? {
        errorMessage := Message(outcome.error);
      } else if Valid() {
        AcceptedIffAnswered(form, ratings, omitted);
      }
    }
  }
}
