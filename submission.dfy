/**
 * The synchronous part of `handleSubmit`: the required-field check, the
 * completeness count, and the ordered payload sent for the new place.
 */
module Submission {
  import opened Wrappers
  import opened Ratings
  import Catalog

  /** The three text fields of the form. */
  datatype PlaceFields = PlaceFields(name: string, city: string, address: string)

  datatype SubmitError = MissingPlaceField | IncompleteSubmission

  /**
   * One payload position: `null` for an omitted category, the stored rating,
   * or `undefined` when the category was neither rated nor omitted.
   */
  datatype Slot = Null | Rated(value: int) | Undefined

  datatype Payload = Payload(place: PlaceFields, ratings: seq<Slot>)

  /** The message shown for each rejection. */
  function Message(e: SubmitError): string {
    match e
    case MissingPlaceField => "Please fill in all required fields (Name, City, and Address)."
    case IncompleteSubmission => "Please rate or omit every category before submitting."
  }

  /** `form.name && form.city && form.address`: a string is falsy only when empty. */
  predicate FieldsFilled(form: PlaceFields) {
    form.name != "" && form.city != "" && form.address != ""
  }

  /** `categories.map(c => omitted.has(c.id) ? null : ratings[c.id])`, over the given ids. */
  function Slots(ids: seq<string>, es: Entries, omitted: set<string>): (r: seq<Slot>)
    ensures |r| == |ids|
    ensures forall i :: 0 <= i < |ids| ==> (r[i] == Null <==> ids[i] in omitted)
    ensures forall i :: 0 <= i < |ids| && ids[i] !in omitted ==>
              r[i] == (match Get(es, ids[i]) case Some(v) => Rated(v) case None => Undefined)
  {
    if ids == [] then []
    else
      var head := if ids[0] in omitted then Null
                  else match Get(es, ids[0]) case Some(v) => Rated(v) case None => Undefined;
      [head] + Slots(ids[1..], es, omitted)
  }

  /**
   * The gate: empty fields are reported first, then a response count
   * (`Object.keys(ratings).length + omitted.size`, counting each key once) different from the catalog
   * size; otherwise the payload is the form and one slot per category in
   * catalog order.
   */
  function Submit(form: PlaceFields, es: Entries, omitted: set<string>): (r: Result<Payload, SubmitError>)
    ensures r == Err(MissingPlaceField) <==> !FieldsFilled(form)
    ensures r == Err(IncompleteSubmission) <==> FieldsFilled(form) && |Keys(es)| + |omitted| != |Catalog.Ids()|
    ensures r.Ok? ==> r.value.place == form && |r.value.ratings| == |Catalog.Ids()|
  {
    if !FieldsFilled(form) then Err(MissingPlaceField)
    else if |Keys(es)| + |omitted| != |Catalog.Ids()| then Err(IncompleteSubmission)
    else Ok(Payload(form, Slots(Catalog.Ids(), es, omitted)))
  }

  /** Every catalog category is rated or omitted. */
  predicate Answered(es: Entries, omitted: set<string>) {
    forall id :: id in Catalog.IdSet() ==> id in Keys(es) || id in omitted
  }

  /**
   * Under the form invariant, the response count equals the catalog size
   * exactly when every category is rated or omitted.
   */
  lemma {:induction false} CountMeansAnswered(es: Entries, omitted: set<string>)
    requires Consistent(es, omitted)
    ensures |Keys(es)| + |omitted| == |Catalog.Ids()| <==> Answered(es, omitted)
  {
    Catalog.CatalogShape();
    Catalog.IdSetSize();
    var answered := Keys(es) + omitted;
    assert |answered| == |Keys(es)| + |omitted|;
    assert answered <= Catalog.IdSet();
    if Answered(es, omitted) {
      assert answered == Catalog.IdSet();
    }
    if |Keys(es)| + |omitted| == |Catalog.Ids()| {
      SubsetOfSameSize(answered, Catalog.IdSet());
    }
  }

  /** A subset with as many elements as its superset is the whole set. */
  lemma {:induction false} SubsetOfSameSize(a: set<string>, b: set<string>)
    requires a <= b && |a| == |b|
    ensures a == b
  {
    if a != b {
      var x :| x in b && x !in a;
      SubsetCardinality(a, b - {x});
    }
  }

  lemma {:induction false} SubsetCardinality(a: set<string>, b: set<string>)
    requires a <= b
    ensures |a| <= |b|
  {
    if a != {} {
      var y :| y in a;
      SubsetCardinality(a - {y}, b - {y});
    }
  }

  /**
   * A submission that passes the gate from a consistent form sends thirteen
   * slots in catalog order: `null` exactly for the omitted categories and the
   * stored rating for every other one, never `undefined`.
   */
  lemma {:induction false} AcceptedPayloadComplete(form: PlaceFields, es: Entries, omitted: set<string>)
    requires Consistent(es, omitted)
    requires Submit(form, es, omitted).Ok?
    ensures var slots := Submit(form, es, omitted).value.ratings;
            && |slots| == 13
            && forall i :: 0 <= i < 13 ==>
                 && (slots[i] == Null <==> Catalog.Ids()[i] in omitted)
                 && slots[i] != Undefined
                 && (slots[i].Rated? ==> Get(es, Catalog.Ids()[i]) == Some(slots[i].value))
  {
    Catalog.CatalogShape();
    Catalog.IdSetSize();
    CountMeansAnswered(es, omitted);
    var slots := Submit(form, es, omitted).value.ratings;
    forall i | 0 <= i < 13
      ensures slots[i] != Undefined
    {
      var id := Catalog.Ids()[i];
      assert id in Catalog.IdSet();
    }
  }

  /**
   * The gate accepts a consistent form with filled fields exactly when every
   * category is rated or omitted.
   */
  lemma {:induction false} AcceptedIffAnswered(form: PlaceFields, es: Entries, omitted: set<string>)
    requires Consistent(es, omitted)
    requires FieldsFilled(form)
    ensures Submit(form, es, omitted).Ok? <==> Answered(es, omitted)
  {
    CountMeansAnswered(es, omitted);
  }

  /**
   * Without the invariant the count alone is not enough: one rating plus
   * twelve omissions reach thirteen while FRONT DESK is neither rated nor
   * omitted, and its slot is `undefined`.
   */
  lemma CountWithoutInvariantAdmitsGap()
    ensures var es := [Entry("HR", 5)];
            var omitted := Catalog.IdSet() - {"FRONT DESK"};
            && Submit(PlaceFields("a", "b", "c"), es, omitted).Ok?
            && !Answered(es, omitted)
            && Submit(PlaceFields("a", "b", "c"), es, omitted).value.ratings[1] == Undefined
  {
    FrontDeskOmissionCount();
    var es := [Entry("HR", 5)];
    var form := PlaceFields("a", "b", "c");
    var omitted := Catalog.IdSet() - {"FRONT DESK"};
    assert Keys(es) == {"HR"} + Keys([]);
    assert |Keys(es)| + |omitted| == |Catalog.Ids()|;
    assert FieldsFilled(form);
    var slots := Slots(Catalog.Ids(), es, omitted);
    assert Submit(form, es, omitted) == Ok(Payload(form, slots));
    assert Get(es, "FRONT DESK") == None;
    assert Catalog.Ids()[1] == "FRONT DESK";
    assert slots[1] == Undefined;
    assert "FRONT DESK" !in Keys(es) && "FRONT DESK" !in omitted;
  }

  /** Omitting every category but FRONT DESK omits twelve. */
  lemma FrontDeskOmissionCount()
    ensures Catalog.Ids()[1] == "FRONT DESK" && "FRONT DESK" in Catalog.IdSet()
    ensures |Catalog.IdSet() - {"FRONT DESK"}| == 12
    ensures |Catalog.Ids()| == 13
  {
    Catalog.IdSetSize();
    assert Catalog.Ids()[1] == "FRONT DESK";
  }
}
