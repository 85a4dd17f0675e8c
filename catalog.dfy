/**
 * The fixed, ordered catalog of rating categories of the vote screen and the
 * weight table used by the preview average.
 */
module Catalog {

  datatype Category = Category(id: string, description: string)

  /** The thirteen category ids, in display and payload order. */
  function Ids(): seq<string> {
    [
      "HR",
      "FRONT DESK",
      "FOOD&BEVERAGE",
      "HOUSEKEEPING",
      "LAUNDRY",
      "LP",
      "MARKETING",
      "EMPLOYEE DINING ROOM",
      "QUALITY OF THE GUEST",
      "HONESTY",
      "DISCRIMINATION",
      "ANIMAL ABUSE",
      "ACCOMMODATION"
    ]
  }

  /** The description shown with each category; no other id has one. */
  function Description(id: string): string {
    match id
    case "HR" => "HUMAN RESOURCES: Evaluates HR responsiveness and care for employees. 1 star = poor, 5 stars = excellent."
    case "FRONT DESK" => "FRONT DESK: Assesses professionalism and communication with colleagues. 1 star = poor, 5 stars = excellent."
    case "FOOD&BEVERAGE" => "FOOD&BEVERAGE: Evaluates food quality and respect for colleagues. 1 star = poor, 5 stars = excellent."
    case "HOUSEKEEPING" => "HOUSEKEEPING: Assesses cleanliness and professionalism. 1 star = poor, 5 stars = excellent."
    case "LAUNDRY" => "LAUNDRY: Evaluates laundry service quality and respect for others. 1 star = poor, 5 stars = excellent."
    case "LP" => "LOSS PREVENTION: Evaluates safety and collaboration. 1 star = poor, 5 stars = excellent."
    case "MARKETING" => "MARKETING: Assesses communication and respect across departments. 1 star = poor, 5 stars = excellent."
    case "EMPLOYEE DINING ROOM" => "EMPLOYEE DINING ROOM: Evaluates food quality and respect in the dining area. 1 star = poor, 5 stars = excellent."
    case "QUALITY OF THE GUEST" => "QUALITY OF THE GUEST: Evaluates guest behavior and professionalism. 1 star = poor, 5 stars = excellent."
    case "HONESTY" => "HONESTY: Assesses trustworthiness and integrity. 1 star = dishonest, 5 stars = very trustworthy."
    case "DISCRIMINATION" => "DISCRIMINATION: Evaluates inclusivity. 1 star = discriminatory, 5 stars = inclusive."
    case "ANIMAL ABUSE" => "ANIMAL ABUSE: Assesses humane treatment of animals. 1 star = abusive, 5 stars = humane treatment."
    case "ACCOMMODATION" => "ACCOMMODATION: Evaluates living arrangements provided by the workplace. 1 star = poor, 5 stars = excellent."
    case _ => ""
  }

  /** The catalog itself: each id, in order, with its description. */
  function Categories(): (r: seq<Category>)
    ensures |r| == |Ids()|
    ensures forall i :: 0 <= i < |r| ==> r[i].id == Ids()[i]
  {
    seq(|Ids()|, i requires 0 <= i < |Ids()| => Category(Ids()[i], Description(Ids()[i])))
  }

  /** The explicit weight table; every id missing from it falls back to 1. */
  const Weights: map<string, int> := map["DISCRIMINATION" := 2, "ANIMAL ABUSE" := 2, "ACCOMMODATION" := 2]

  /** The category ids as a set. */
  function IdSet(): set<string> {
    set i | 0 <= i < |Ids()| :: Ids()[i]
  }

  predicate Distinct(s: seq<string>) {
    forall i, j :: 0 <= i < j < |s| ==> s[i] != s[j]
  }

  /** The weight of a key: `weights[key] || 1`, where an undefined or zero entry is falsy. */
  function Weight(id: string): (w: int)
    ensures w == 1 || w == 2
    ensures w == 2 <==> id in Weights
  {
    if id in Weights && Weights[id] != 0 then Weights[id] else 1
  }

  /** The catalog has thirteen categories, and no id occurs twice. */
  lemma CatalogShape()
    ensures |Ids()| == 13
    ensures Distinct(Ids())
  {
  }

  /** Exactly the last three categories have weight 2; every other one defaults to 1. */
  lemma CatalogWeights()
    ensures forall i :: 0 <= i < 13 ==> Weight(Ids()[i]) == if i >= 10 then 2 else 1
  {
  }

  /** A duplicate-free sequence has as many distinct elements as positions. */
  lemma {:induction false} DistinctCardinality(s: seq<string>)
    requires Distinct(s)
    ensures |set i | 0 <= i < |s| :: s[i]| == |s|
  {
    if s != [] {
      var last := |s| - 1;
      DistinctCardinality(s[..last]);
      var front := set i | 0 <= i < last :: s[..last][i];
      var whole := set i | 0 <= i < |s| :: s[i];
      assert whole == front + {s[last]};
      assert s[last] !in front;
    }
  }

  /** The catalog id set has thirteen members, so the completeness count is well chosen. */
  lemma IdSetSize()
    ensures |IdSet()| == 13
    ensures forall id :: id in IdSet() <==> id in Ids()
  {
    CatalogShape();
    DistinctCardinality(Ids());
  }
}
