/**
 * `handlePasteData`: pasted text of the form "Name | City | Address" is split
 * on " | " and, when the first three pieces are non-empty, becomes the form.
 */
module Paste {
  import opened Wrappers
  import opened Submission

  const Separator: string := " | "

  /** `sep` occurs in `s` starting at index `k`. */
  predicate OccursAt(s: string, sep: string, k: int) {
    0 <= k && k + |sep| <= |s| && s[k..k + |sep|] == sep
  }

  predicate Contains(s: string, sep: string) {
    exists k :: 0 <= k <= |s| && OccursAt(s, sep, k)
  }

  /** Occurrences in a string without its first character are the later occurrences in the string. */
  lemma {:induction false} OccursAtShift(s: string, sep: string, k: int)
    requires |s| > 0 && 0 <= k
    ensures OccursAt(s[1..], sep, k) <==> OccursAt(s, sep, k + 1)
  {
    if k + |sep| <= |s[1..]| {
      assert s[1..][k..k + |sep|] == s[k + 1..k + 1 + |sep|];
    }
  }

  /** `s.indexOf(sep)`: the first occurrence of `sep`, or None. */
  function IndexOf(s: string, sep: string): (r: Option<nat>)
    requires |sep| > 0
    ensures r.Some? ==> OccursAt(s, sep, r.value) && forall k :: 0 <= k < r.value ==> !OccursAt(s, sep, k)
    ensures r.None? ==> forall k :: !OccursAt(s, sep, k)
  {
    if |s| < |sep| then None
    else if s[..|sep|] == sep then Some(0)
    else
      var r := IndexOf(s[1..], sep);
      assert !OccursAt(s, sep, 0);
      assert forall k :: 0 <= k ==> (OccursAt(s[1..], sep, k) <==> OccursAt(s, sep, k + 1)) by {
        forall k | 0 <= k {
          OccursAtShift(s, sep, k);
        }
      }
      match r
      case None =>
        assert forall k :: !OccursAt(s, sep, k) by {
          forall k ensures !OccursAt(s, sep, k) {
            if k > 0 {
              OccursAtShift(s, sep, k - 1);
            }
          }
        }
        None
      case Some(j) =>
        assert forall k :: 0 <= k < j + 1 ==> !OccursAt(s, sep, k) by {
          forall k | 0 <= k < j + 1 ensures !OccursAt(s, sep, k) {
            if k > 0 {
              OccursAtShift(s, sep, k - 1);
            }
          }
        }
        Some(j + 1)
  }

  /** An occurrence inside a prefix is an occurrence in the whole string that ends within the prefix. */
  lemma {:induction false} OccursInPrefix(s: string, i: nat, sep: string, k: int)
    requires i <= |s|
    ensures OccursAt(s[..i], sep, k) ==> OccursAt(s, sep, k) && k + |sep| <= i
  {
    if OccursAt(s[..i], sep, k) {
      assert s[..i][k..k + |sep|] == s[k..k + |sep|];
    }
  }

  /**
   * `s.split(sep)` for a non-empty separator: the pieces between the
   * successive leftmost occurrences of `sep`.
   */
  function Split(s: string, sep: string): (r: seq<string>)
    requires |sep| > 0
    ensures |r| >= 1
    decreases |s|
  {
    match IndexOf(s, sep)
    case None => [s]
    case Some(i) => [s[..i]] + Split(s[i + |sep|..], sep)
  }

  /** No piece of a split contains the separator. */
  lemma {:induction false} SplitPiecesFree(s: string, sep: string)
    requires |sep| > 0
    ensures forall p :: p in Split(s, sep) ==> !Contains(p, sep)
    decreases |s|
  {
    match IndexOf(s, sep)
    case None =>
      assert Split(s, sep) == [s];
    case Some(i) =>
      var head := s[..i];
      forall k | 0 <= k <= |head| ensures !OccursAt(head, sep, k) {
        OccursInPrefix(s, i, sep, k);
      }
      SplitPiecesFree(s[i + |sep|..], sep);
      assert Split(s, sep) == [head] + Split(s[i + |sep|..], sep);
  }

  /** `pieces.join(sep)`. */
  function Join(pieces: seq<string>, sep: string): string {
    if |pieces| == 0 then ""
    else if |pieces| == 1 then pieces[0]
    else pieces[0] + sep + Join(pieces[1..], sep)
  }

  /** Splitting loses nothing: joining the pieces back gives the original text. */
  lemma {:induction false} SplitJoin(s: string, sep: string)
    requires |sep| > 0
    ensures Join(Split(s, sep), sep) == s
    decreases |s|
  {
    var r := IndexOf(s, sep);
    if r.Some? {
      var i := r.value;
      var rest := s[i + |sep|..];
      SplitJoin(rest, sep);
      JoinCons(s[..i], Split(rest, sep), sep);
      Reassemble(s, i, sep);
    }
  }

  /** Joining a head in front of a non-empty list puts one separator between them. */
  lemma {:induction false} JoinCons(head: string, tail: seq<string>, sep: string)
    requires |tail| >= 1
    ensures Join([head] + tail, sep) == head + sep + Join(tail, sep)
  {
    assert ([head] + tail)[1..] == tail;
  }

  /** A string is its part before an occurrence, the occurrence, and its part after. */
  lemma {:induction false} Reassemble(s: string, i: nat, sep: string)
    requires OccursAt(s, sep, i)
    ensures s == s[..i] + sep + s[i + |sep|..]
  {
    assert s == s[..i] + s[i..i + |sep|] + s[i + |sep|..];
  }

  /** The first three pieces, in the requested format, begin the joined text. */
  lemma {:induction false} JoinStartsWithThree(pieces: seq<string>, sep: string)
    requires |pieces| >= 3
    ensures pieces[0] + sep + pieces[1] + sep + pieces[2] <= Join(pieces, sep)
  {
    var rest := pieces[2..];
    assert pieces[1..][1..] == rest;
    assert Join(pieces, sep) == pieces[0] + sep + (pieces[1] + sep + Join(rest, sep));
    assert pieces[2] <= Join(rest, sep);
  }

  /** The pasted text the format asks for: "Name | City | Address". */
  function Format(form: PlaceFields): string {
    form.name + Separator + form.city + Separator + form.address
  }

  /** The i-th piece of a destructuring `[name, city, address]`, None for `undefined`. */
  function Piece(pieces: seq<string>, i: nat): Option<string> {
    if i < |pieces| then Some(pieces[i]) else None
  }

  /** A destructured piece is truthy: defined and non-empty. */
  predicate Truthy(p: Option<string>) {
    p.Some? && p.value != ""
  }

  /**
   * The form taken from pasted text: the first three pieces when all are
   * truthy, otherwise None (the text is rejected with an alert).
   */
  function ParsePaste(text: string): (r: Option<PlaceFields>)
  {
    var pieces := Split(text, Separator);
    var name, city, address := Piece(pieces, 0), Piece(pieces, 1), Piece(pieces, 2);
    if Truthy(name) && Truthy(city) && Truthy(address) then
      Some(PlaceFields(name.value, city.value, address.value))
    else None
  }

  /**
   * An accepted paste has three filled fields free of the separator, and the
   * text begins with exactly those fields in the requested format; anything
   * after the third piece is ignored.
   */
  lemma {:induction false} AcceptedPasteShape(text: string)
    requires ParsePaste(text).Some?
    ensures var pieces := Split(text, Separator);
            |pieces| >= 3 && ParsePaste(text).value == PlaceFields(pieces[0], pieces[1], pieces[2])
    ensures var form := ParsePaste(text).value;
            && FieldsFilled(form)
            && !Contains(form.name, Separator) && !Contains(form.city, Separator) && !Contains(form.address, Separator)
            && Format(form) <= text
  {
    var pieces := Split(text, Separator);
    SplitJoin(text, Separator);
    SplitPiecesFree(text, Separator);
    JoinStartsWithThree(pieces, Separator);
    assert pieces[0] in pieces && pieces[1] in pieces && pieces[2] in pieces;
  }

  /** Text without the separator is one piece, so it is rejected. */
  lemma {:induction false} NoSeparatorRejected(text: string)
    requires !Contains(text, Separator)
    ensures ParsePaste(text) == None
  {
    assert Split(text, Separator) == [text];
  }

  /** The field ends with " |", the first two characters of the separator. */
  predicate EndsWithBar(field: string) {
    |field| >= 2 && field[|field| - 2..] == " |"
  }

  /**
   * A field that neither contains the separator nor ends with " |" is split
   * off exactly at the separator that follows it.
   */
  lemma {:induction false} SplitAfterField(field: string, rest: string)
    requires !Contains(field, Separator) && !EndsWithBar(field)
    ensures Split(field + Separator + rest, Separator) == [field] + Split(rest, Separator)
  {
    var s := field + Separator + rest;
    var n := |field|;
    assert OccursAt(s, Separator, n) by {
      assert s[n..n + 3] == Separator;
    }
    forall k | 0 <= k < n ensures !OccursAt(s, Separator, k) {
      if k + 3 <= n {
        assert !OccursAt(field, Separator, k);
        assert s[k..k + 3] == field[k..k + 3];
      } else if k == n - 1 {
        assert s[k + 1] == ' ';
        assert s[k..k + 3][1] == s[k + 1];
      } else {
        assert s[k..k + 2] == field[n - 2..];
        assert s[k..k + 3][..2] == s[k..k + 2];
        assert Separator[..2] == " |";
      }
    }
    var r := IndexOf(s, Separator);
    assert r == Some(n);
    assert s[..n] == field;
    assert s[n + 3..] == rest;
  }

  /** A field the round trip accepts. */
  predicate PasteSafe(field: string) {
    field != "" && !Contains(field, Separator) && !EndsWithBar(field)
  }

  /**
   * Pasting the formatted fields restores them, when the name and city are
   * non-empty, contain no separator and do not end with " |", and the address
   * is non-empty and contains no separator.
   */
  lemma {:induction false} PasteRoundTrip(form: PlaceFields)
    requires PasteSafe(form.name) && PasteSafe(form.city)
    requires form.address != "" && !Contains(form.address, Separator)
    ensures ParsePaste(Format(form)) == Some(form)
  {
    var tail := form.city + Separator + form.address;
    assert Format(form) == form.name + Separator + tail;
    SplitAfterField(form.name, tail);
    SplitAfterField(form.city, form.address);
    assert Split(form.address, Separator) == [form.address];
    assert Split(Format(form), Separator) == [form.name] + ([form.city] + ([form.address] + []));
    ParseOfFirstPieces(Format(form), form.name, form.city, form.address, []);
  }

  /**
   * A name ending in " |" does not survive the round trip although it does
   * not contain the separator: "x |" pasted with city "c" and address "d"
   * comes back as name "x", city "| c", address "d".
   */
  lemma RoundTripNeedsNoTrailingBar()
    ensures !Contains("x |", Separator)
    ensures ParsePaste(Format(PlaceFields("x |", "c", "d"))) == Some(PlaceFields("x", "| c", "d"))
  {
    ShortFieldsFree();
    var tail := "| c" + Separator + "d";
    var text := "x" + Separator + tail;
    RegroupTrailingBar();
    SplitAfterField("x", tail);
    SplitAfterField("| c", "d");
    assert Split("d", Separator) == ["d"];
    assert Split(text, Separator) == ["x", "| c", "d"];
    ParseOfThreePieces(text, "x", "| c", "d");
  }

  /**
   * Pieces after the third are ignored: a formatted form followed by the
   * separator and anything else still gives back the form, when every field
   * is one the round trip accepts.
   */
  lemma {:induction false} ExtraPiecesIgnored(form: PlaceFields, extra: string)
    requires PasteSafe(form.name) && PasteSafe(form.city) && PasteSafe(form.address)
    ensures ParsePaste(Format(form) + Separator + extra) == Some(form)
  {
    var afterCity := form.address + Separator + extra;
    var afterName := form.city + Separator + afterCity;
    var text := Format(form) + Separator + extra;
    assert text == form.name + Separator + afterName;
    SplitAfterField(form.name, afterName);
    SplitAfterField(form.city, afterCity);
    SplitAfterField(form.address, extra);
    var rest := Split(extra, Separator);
    assert Split(text, Separator) == [form.name] + ([form.city] + ([form.address] + rest));
    ParseOfFirstPieces(text, form.name, form.city, form.address, rest);
  }

  /** Text whose split begins with three non-empty pieces is parsed into those pieces. */
  lemma {:induction false} ParseOfFirstPieces(text: string, name: string, city: string, address: string, rest: seq<string>)
    requires Split(text, Separator) == [name] + ([city] + ([address] + rest))
    requires name != "" && city != "" && address != ""
    ensures ParsePaste(text) == Some(PlaceFields(name, city, address))
  {
    var pieces := Split(text, Separator);
    assert pieces[0] == name && pieces[1] == city && pieces[2] == address;
  }

  /** Text that splits into three non-empty pieces is parsed into those pieces. */
  lemma {:induction false} ParseOfThreePieces(text: string, name: string, city: string, address: string)
    requires Split(text, Separator) == [name, city, address]
    requires name != "" && city != "" && address != ""
    ensures ParsePaste(text) == Some(PlaceFields(name, city, address))
  {
  }

  /** The pasted text regrouped around the separator that the split finds first. */
  lemma RegroupTrailingBar()
    ensures Format(PlaceFields("x |", "c", "d")) == "x" + Separator + ("| c" + Separator + "d")
  {
  }

  /** The short fields used above contain no separator. */
  lemma ShortFieldsFree()
    ensures !Contains("x", Separator) && !Contains("d", Separator)
    ensures !Contains("x |", Separator) && !Contains("| c", Separator)
    ensures !EndsWithBar("x") && !EndsWithBar("| c")
  {
    assert "x |"[0] != Separator[0];
    assert "| c"[0] != Separator[0];
    assert "| c"[1..] != " |";
  }
}
