/** `DelimitedCharField`: a form field whose text is a delimited list of values. */
module UiForms {
  import opened Wrappers
  import opened PyStr

  /** The field's configuration, fixed when it is declared. */
  datatype DelimitedCharField = DelimitedCharField(delimiter: string, keepEmptyValues: bool)

  /** What the field holds: the text of the form, or the cleaned list. */
  datatype FieldValue = Text(text: string) | Items(items: seq<string>)

  /** `CharField.to_python` with its defaults: absent stays empty, anything else is stripped. */
  function BaseClean(value: Option<string>): (t: string)
    ensures IsStripped(t)
  {
    if value.None? then "" else Strip(value.value)
  }

  lemma BaseCleanStripped(s: string)
    requires IsStripped(s)
    ensures BaseClean(Some(s)) == s
  {
    StripUnchanged(s);
  }

  /** The elements kept from the pieces: stripped, and the empty ones left out unless they
      are to be kept. */
  function Cleaned(pieces: seq<string>, keep: bool): (r: seq<string>)
    ensures |r| <= |pieces|
    ensures CleanValues(r, keep)
  {
    if pieces == [] then []
    else
      var head := Kept(pieces[0], keep);
      var tail := Cleaned(pieces[1..], keep);
      CleanValuesConcat(head, tail, keep);
      head + tail
  }

  /** Whether every element is stripped and, unless empty values are kept, non-empty. */
  predicate CleanValues(xs: seq<string>, keep: bool) {
    forall k :: 0 <= k < |xs| ==> IsStripped(xs[k]) && (keep || xs[k] != "")
  }

  lemma CleanValuesConcat(a: seq<string>, b: seq<string>, keep: bool)
    requires CleanValues(a, keep) && CleanValues(b, keep)
    ensures CleanValues(a + b, keep)
  {
    forall k | 0 <= k < |a + b| ensures IsStripped((a + b)[k]) && (keep || (a + b)[k] != "") {
      if k < |a| {
        assert (a + b)[k] == a[k];
      } else {
        assert (a + b)[k] == b[k - |a|];
      }
    }
  }

  /** What one piece contributes: its stripped form, unless that is empty and empty values
      are not kept. */
  function Kept(piece: string, keep: bool): (r: seq<string>)
    ensures |r| <= 1
    ensures r == [] <==> !keep && Strip(piece) == ""
    ensures r != [] ==> r[0] == Strip(piece)
  {
    var e := Strip(piece);
    if keep || e != "" then [e] else []
  }

  /** With `keep_empty_values` every piece is kept, stripped, in order. */
  lemma {:induction false} CleanedKeepsAll(pieces: seq<string>)
    ensures var r := Cleaned(pieces, true);
      |r| == |pieces| && forall k :: 0 <= k < |r| ==> r[k] == Strip(pieces[k])
  {
    if pieces != [] {
      CleanedKeepsAll(pieces[1..]);
      var rest := Cleaned(pieces[1..], true);
      var r := Cleaned(pieces, true);
      assert r == [Strip(pieces[0])] + rest;
      forall k | 0 <= k < |r| ensures r[k] == Strip(pieces[k]) {
        if k > 0 {
          assert r[k] == rest[k - 1] && pieces[1..][k - 1] == pieces[k];
        }
      }
    }
  }

  /** Stripped, non-empty pieces come through unchanged: nothing is reordered or merged. */
  lemma {:induction false} CleanedOfStripped(pieces: seq<string>, keep: bool)
    requires forall k :: 0 <= k < |pieces| ==> pieces[k] != "" && IsStripped(pieces[k])
    ensures Cleaned(pieces, keep) == pieces
  {
    if pieces != [] {
      CleanedOfStripped(pieces[1..], keep);
      StripUnchanged(pieces[0]);
      assert pieces == [pieces[0]] + pieces[1..];
    }
  }

  lemma CleanedStep(pieces: seq<string>, i: nat, keep: bool)
    requires i < |pieces|
    ensures Cleaned(pieces[i..], keep) == Kept(pieces[i], keep) + Cleaned(pieces[i + 1..], keep)
  {
    assert pieces[i..][1..] == pieces[i + 1..];
  }

  /** Cleaning one more piece appends what that piece contributes. */
  lemma {:induction false} CleanedAppend(pieces: seq<string>, piece: string, keep: bool)
    ensures Cleaned(pieces + [piece], keep) == Cleaned(pieces, keep) + Kept(piece, keep)
  {
    if pieces == [] {
      assert [] + [piece] == [piece] && [piece][1..] == [];
    } else {
      assert (pieces + [piece])[1..] == pieces[1..] + [piece];
      CleanedAppend(pieces[1..], piece, keep);
      var a, b, c := Kept(pieces[0], keep), Cleaned(pieces[1..], keep), Kept(piece, keep);
      assert a + (b + c) == (a + b) + c;
    }
  }

  lemma CleanedPrefixStep(pieces: seq<string>, i: nat, keep: bool)
    requires i < |pieces|
    ensures Cleaned(pieces[..i + 1], keep) == Cleaned(pieces[..i], keep) + Kept(pieces[i], keep)
  {
    assert pieces[..i + 1] == pieces[..i] + [pieces[i]];
    CleanedAppend(pieces[..i], pieces[i], keep);
  }

  /** The list cleaned from text that is already stripped and not empty. */
  function SplitCleaned(field: DelimitedCharField, t: string): Result<FieldValue> {
    if field.delimiter == "" then Raise(ValueError, "empty separator")
    else Ok(Items(Cleaned(Split(t, field.delimiter), field.keepEmptyValues)))
  }

  /** `DelimitedCharField.to_python`. */
  function ToPythonValue(field: DelimitedCharField, value: Option<string>): (r: Result<FieldValue>)
    ensures BaseClean(value) == "" ==> r == Ok(Text(""))
    ensures BaseClean(value) != "" ==> (r.Err? <==> field.delimiter == "")
    ensures r.Ok? && r.value.Items? ==> forall k :: 0 <= k < |r.value.items| ==>
      IsStripped(r.value.items[k]) && (field.keepEmptyValues || r.value.items[k] != "")
  {
    var t := BaseClean(value);
    if t == "" then Ok(Text("")) else SplitCleaned(field, t)
  }

  lemma KeptIs(piece: string, keep: bool, element: string)
    requires element == Strip(piece)
    ensures (if keep || element != "" then [element] else []) == Kept(piece, keep)
  {
  }

  /** The loop of `to_python` over the pieces of the split. */
  method CleanPieces(pieces: seq<string>, keep: bool) returns (values: seq<string>)
    ensures values == Cleaned(pieces, keep)
  {
    values := [];
    var i := 0;
    while i < |pieces|
      invariant i <= |pieces|
      invariant values == Cleaned(pieces[..i], keep)
    {
      var element := Strip(pieces[i]);
      var kept := if keep || element != "" then [element] else [];
      KeptIs(pieces[i], keep, element);
      CleanedPrefixStep(pieces, i, keep);
      values := values + kept;
      i := i + 1;
    }
    assert pieces[..i] == pieces;
  }

  /** `DelimitedCharField.to_python`. */
  method ToPython(field: DelimitedCharField, value: Option<string>) returns (r: Result<FieldValue>)
    ensures r == ToPythonValue(field, value)
  {
    var t := BaseClean(value);
    if t == "" {
      return Ok(Text(""));
    }
    if field.delimiter == "" {
      return Raise(ValueError, "empty separator");
    }
    var values := CleanPieces(Split(t, field.delimiter), field.keepEmptyValues);
    r := Ok(Items(values));
  }

  /** `prepare_value`: a list is joined with the delimiter; anything else passes through. */
  function PrepareValue(field: DelimitedCharField, value: FieldValue): (r: FieldValue)
    ensures r.Text?
    ensures value.Text? ==> r == value
  {
    match value
    case Text(_) => value
    case Items(xs) => Text(Join(field.delimiter, xs))
  }

  /** With a one-character delimiter, a list of stripped, non-empty, delimiter-free values
      survives being prepared and cleaned again. */
  lemma RoundTrip(c: char, keep: bool, xs: seq<string>)
    requires xs != []
    requires forall k :: 0 <= k < |xs| ==> xs[k] != "" && IsStripped(xs[k]) && c !in xs[k]
    ensures var field := DelimitedCharField([c], keep);
      ToPythonValue(field, Some(PrepareValue(field, Items(xs)).text)) == Ok(Items(xs))
  {
    var s := Join([c], xs);
    JoinFirst([c], xs);
    JoinLast([c], xs);
    BaseCleanStripped(s);
    SplitJoin(xs, c);
    CleanedOfStripped(xs, keep);
  }

  lemma SplitExample()
    ensures Split("aaab", "aa") == ["", "ab"]
  {
    assert OccursAt("aaab", "aa", 0);
    assert Find("aaab", "aa") == Some(0);
    assert "aaab"[2..] == "ab";
    assert "ab"[0..2] == "ab" && "ab" != "aa";
    assert forall k :: !OccursAt("ab", "aa", k);
    assert Find("ab", "aa") == None;
  }

  lemma CleanedExample()
    ensures Cleaned(["", "ab"], false) == ["ab"]
  {
    var pieces := ["", "ab"];
    assert IsStripped("ab");
    CleanedOfStripped(["ab"], false);
    StripUnchanged("");
    CleanedStep(pieces, 0, false);
    assert pieces[0..] == pieces && pieces[1..] == ["ab"];
  }

  /** A delimiter of several characters does not have that property: with `"aa"`, the
      values `a` and `b` are prepared as `aaab`, which cleans to the single value `ab`. */
  lemma MultiCharacterRoundTripFails()
    ensures var field := DelimitedCharField("aa", false);
      PrepareValue(field, Items(["a", "b"])) == Text("aaab") &&
      ToPythonValue(field, Some("aaab")) == Ok(Items(["ab"]))
  {
    assert Join("aa", ["a", "b"]) == "aaab" by {
      assert ["a", "b"] == ["a"] + ["b"];
      JoinCons("aa", "a", ["b"]);
    }
    SplitExample();
    CleanedExample();
    assert IsStripped("aaab");
    BaseCleanStripped("aaab");
  }
}
