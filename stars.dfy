/**
 * The star row of the ranking list (`renderStars` in `RankingList`): full
 * stars for the integer part, one more filled glyph when the fractional part
 * is at least one half, and empty stars up to five minus the ceiling.
 * Ratings are exact reals; floating point is not modelled. Outside [0, 5]
 * one of the repeat counts is negative and no row is drawn.
 */
module Stars {
  import opened Wrappers

  const FullStar: char := '\U{2605}'
  const EmptyStar: char := '\U{2606}'

  /** The three parts of a star row: the two repeat counts and the optional half star. */
  datatype Row = Row(full: nat, half: bool, empty: nat)

  /** `Math.floor`. */
  function Floor(r: real): (f: int)
    ensures f as real <= r < f as real + 1.0
  {
    r.Floor
  }

  /** `Math.ceil`. */
  function Ceil(r: real): (c: int)
    ensures c as real - 1.0 < r <= c as real
  {
    -((-r).Floor)
  }

  /** `r % 1` for a non-negative `r`: JavaScript's remainder truncates, which is the floor here. */
  function FractionalPart(r: real): (f: real)
    requires r >= 0.0
    ensures 0.0 <= f < 1.0
    ensures (r - f).Floor as real == r - f
  {
    r - Floor(r) as real
  }

  /**
   * `renderStars(rating)` as written, or None when one of the two `repeat`
   * counts is negative and `repeat` throws a RangeError.
   */
  function RenderStars(rating: real): (r: Option<Row>)
    ensures r.Some? <==> 0.0 <= rating <= 5.0
    ensures r.Some? ==> r.value.full <= 5 && r.value.empty <= 5
    ensures r.Some? ==> r.value.full as real <= rating < r.value.full as real + 1.0
    ensures r.Some? ==> (r.value.half <==> rating - r.value.full as real >= 0.5)
    ensures r.Some? ==> (5 - r.value.empty) as real - 1.0 < rating <= (5 - r.value.empty) as real
  {
    var full := Floor(rating);
    var empty := 5 - Ceil(rating);
    if full < 0 || empty < 0 then None
    else Some(Row(full, FractionalPart(rating) >= 0.5, empty))
  }

  /** `c.repeat(n)`. */
  function Repeat(c: char, n: nat): (s: string)
    ensures |s| == n
    ensures forall i :: 0 <= i < n ==> s[i] == c
  {
    if n == 0 then [] else [c] + Repeat(c, n - 1)
  }

  /** The glyphs of a row: full stars, the half star (drawn with the full-star glyph), empty stars. */
  function Glyphs(row: Row): string {
    Repeat(FullStar, row.full) + (if row.half then [FullStar] else []) + Repeat(EmptyStar, row.empty)
  }

  /** The number of glyphs drawn for a row. */
  function GlyphCount(row: Row): nat {
    row.full + (if row.half then 1 else 0) + row.empty
  }

  lemma {:induction false} GlyphsLength(row: Row)
    ensures |Glyphs(row)| == GlyphCount(row)
    ensures forall i :: 0 <= i < |Glyphs(row)| ==> (Glyphs(row)[i] == EmptyStar <==> i >= GlyphCount(row) - row.empty)
  {
  }

  /** An integer rating r in 0..5 draws r full stars, no half star and 5 - r empty stars. */
  lemma {:induction false} IntegerRating(r: nat)
    requires r <= 5
    ensures RenderStars(r as real) == Some(Row(r, false, 5 - r))
    ensures |Glyphs(RenderStars(r as real).value)| == 5
  {
    GlyphsLength(Row(r, false, 5 - r));
  }

  /**
   * A rating strictly between two integers draws five glyphs when its
   * fractional part is at least one half and only four otherwise.
   */
  lemma {:induction false} FractionalRating(rating: real)
    requires 0.0 < rating < 5.0 && Floor(rating) as real != rating
    ensures |Glyphs(RenderStars(rating).value)| == if FractionalPart(rating) >= 0.5 then 5 else 4
  {
    var row := RenderStars(rating).value;
    GlyphsLength(row);
    assert Ceil(rating) == Floor(rating) + 1;
  }

  /** As written, 4.2 draws a row of four glyphs: four full stars and no empty one. */
  lemma ShortRowForSmallFraction()
    ensures RenderStars(4.2) == Some(Row(4, false, 0))
    ensures |Glyphs(RenderStars(4.2).value)| == 4
  {
    assert Floor(4.2) == 4;
    assert Ceil(4.2) == 5;
    GlyphsLength(Row(4, false, 0));
  }

  /**
   * The star row with the empty count taken from the glyphs already drawn,
   * so that every rating fills exactly five slots.
   */
  function RenderStarsFixed(rating: real): (r: Option<Row>)
    ensures r.Some? <==> RenderStars(rating).Some?
    ensures r.Some? ==> GlyphCount(r.value) == 5
    ensures r.Some? ==> r.value.full == RenderStars(rating).value.full && r.value.half == RenderStars(rating).value.half
  {
    if rating < 0.0 || rating > 5.0 then None
    else
      var full := Floor(rating);
      var half := FractionalPart(rating) >= 0.5;
      Some(Row(full, half, 5 - full - (if half then 1 else 0)))
  }

  /**
   * The corrected row always has five glyphs, and it differs from the row as
   * written exactly when the fractional part lies strictly between 0 and 1/2.
   */
  lemma {:induction false} FixedRowAlwaysFive(rating: real)
    requires 0.0 <= rating <= 5.0
    ensures |Glyphs(RenderStarsFixed(rating).value)| == 5
    ensures RenderStarsFixed(rating) != RenderStars(rating) <==> 0.0 < FractionalPart(rating) < 0.5
  {
    GlyphsLength(RenderStarsFixed(rating).value);
    if FractionalPart(rating) == 0.0 {
      assert Ceil(rating) == Floor(rating);
    } else {
      assert Ceil(rating) == Floor(rating) + 1;
    }
  }

  /** `parseFloat(place.averageRating) || 0`: NaN (None) and 0 both become 0. */
  function DisplayRating(parsed: Option<real>): (r: real)
    ensures parsed.None? ==> r == 0.0
    ensures parsed.Some? ==> r == parsed.value
  {
    match parsed
    case None => 0.0
    case Some(v) => if v == 0.0 then 0.0 else v
  }

  /** A missing or non-numeric average is drawn as five empty stars. */
  lemma MissingRatingShowsEmptyStars()
    ensures RenderStars(DisplayRating(None)) == Some(Row(0, false, 5))
    ensures Glyphs(RenderStars(DisplayRating(None)).value) == [EmptyStar, EmptyStar, EmptyStar, EmptyStar, EmptyStar]
  {
    IntegerRating(0);
    var g := Glyphs(Row(0, false, 5));
    GlyphsLength(Row(0, false, 5));
    assert forall i :: 0 <= i < 5 ==> g[i] == EmptyStar;
  }
}
