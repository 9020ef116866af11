/** `RequestParser`: an `argparse` parser fed with the parameters of an HTTP request, as if
    they had been given on a command line. */
module RequestParsing {
  import opened Wrappers
  import opened PyStr

  /** The message `CommaSeparatedList` raises when every item is empty. */
  const NoItemsMessage := "Failed to parse CSV list (No valid items found in list)"

  predicate AllEmpty(items: seq<string>) {
    forall k :: 0 <= k < |items| ==> items[k] == ""
  }

  /** `set([item.strip() for item in items if item != ''])`. */
  function Survivors(items: seq<string>): (s: set<string>)
    ensures s == {} <==> AllEmpty(items)
  {
    if items == [] then {}
    else
      var rest := Survivors(items[1..]);
      assert forall k :: 1 <= k < |items| ==> items[1..][k - 1] == items[k];
      if items[0] == "" then rest else {Strip(items[0])} + rest
  }

  /** Every non-empty item of `items` has its stripped form in `s`. */
  predicate KeepsAll(items: seq<string>, s: set<string>) {
    forall k :: 0 <= k < |items| && items[k] != "" ==> Strip(items[k]) in s
  }

  /** Every non-empty item contributes its stripped form. */
  lemma {:induction false} SurvivorsKept(items: seq<string>)
    ensures KeepsAll(items, Survivors(items))
  {
    if items != [] {
      SurvivorsKept(items[1..]);
      assert forall k :: 1 <= k < |items| ==> items[1..][k - 1] == items[k];
    }
  }

  /** Every element of `s` is the stripped form of a non-empty item of `items`. */
  predicate OnlyFrom(items: seq<string>, s: set<string>) {
    forall x :: x in s ==> exists k :: 0 <= k < |items| && items[k] != "" && Strip(items[k]) == x
  }

  /** Nothing but the stripped non-empty items survives. */
  lemma {:induction false} SurvivorsOnlyFrom(items: seq<string>)
    ensures OnlyFrom(items, Survivors(items))
  {
    if items != [] {
      SurvivorsOnlyFrom(items[1..]);
      forall x | x in Survivors(items)
        ensures exists k :: 0 <= k < |items| && items[k] != "" && Strip(items[k]) == x
      {
        if items[0] != "" && x == Strip(items[0]) {
          assert items[0] != "" && Strip(items[0]) == x;
        } else {
          var j :| 0 <= j < |items[1..]| && items[1..][j] != "" && Strip(items[1..][j]) == x;
          assert items[j + 1] == items[1..][j];
        }
      }
    }
  }

  /** The survivors are exactly the stripped forms of the non-empty items. */
  lemma SurvivorsExactly(items: seq<string>)
    ensures Survivors(items) == set k | 0 <= k < |items| && items[k] != "" :: Strip(items[k])
  {
    SurvivorsKept(items);
    SurvivorsOnlyFrom(items);
  }

  /** Every survivor is stripped, and free of commas when the items are. */
  lemma {:induction false} SurvivorsShape(items: seq<string>)
    requires forall k :: 0 <= k < |items| ==> ',' !in items[k]
    ensures forall x :: x in Survivors(items) ==> IsStripped(x) && ',' !in x
  {
    if items != [] {
      SurvivorsShape(items[1..]);
      StripKeepsOut(items[0], ',');
    }
  }

  /** The list parsed from text that is already stripped. */
  function ItemsSet(t: string): (r: Result<set<string>>)
    ensures var items := Split(t, ",");
      && (r.Err? <==> AllEmpty(items))
      && (r.Ok? ==> KeepsAll(items, r.value) && OnlyFrom(items, r.value))
    ensures r.Err? ==> r.error == Error(ArgumentTypeError, NoItemsMessage)
    ensures r.Ok? ==> forall x :: x in r.value ==> IsStripped(x) && ',' !in x
  {
    var items := Split(t, ",");
    SplitCharPieces(t, ',');
    SurvivorsShape(items);
    SurvivorsKept(items);
    SurvivorsOnlyFrom(items);
    if AllEmpty(items) then Raise(ArgumentTypeError, NoItemsMessage) else Ok(Survivors(items))
  }

  /** `CommaSeparatedList`: the stripped text split on commas, the empty items left out, the
      others stripped and collected in a set. */
  function CommaSeparatedList(arg: string): (r: Result<set<string>>)
    ensures var items := Split(Strip(arg), ",");
      && (r.Err? <==> AllEmpty(items))
      && (r.Ok? ==> KeepsAll(items, r.value) && OnlyFrom(items, r.value))
    ensures r.Err? ==> r.error == Error(ArgumentTypeError, NoItemsMessage)
    ensures r.Ok? ==> forall x :: x in r.value ==> IsStripped(x) && ',' !in x
  {
    ItemsSet(Strip(arg))
  }

  /** An item of blanks survives the filter, which looks at it before stripping, and
      contributes the empty string. */
  lemma BlankItemGivesEmpty(arg: string, k: nat)
    requires var items := Split(Strip(arg), ","); k < |items| && items[k] != "" && AllSpace(items[k])
    ensures CommaSeparatedList(arg).Ok? && "" in CommaSeparatedList(arg).value
  {
  }

  lemma {:induction false} SurvivorsOfStripped(xs: seq<string>)
    requires forall k :: 0 <= k < |xs| ==> xs[k] != "" && IsStripped(xs[k])
    ensures Survivors(xs) == set x | x in xs
  {
    if xs != [] {
      SurvivorsOfStripped(xs[1..]);
      StripUnchanged(xs[0]);
      assert xs == [xs[0]] + xs[1..];
    }
  }

  lemma ListOfStripped(s: string)
    requires IsStripped(s)
    ensures CommaSeparatedList(s) == ItemsSet(s)
  {
    StripUnchanged(s);
  }

  /** Stripped, non-empty, comma-free names joined with commas come back as their set:
      order and repeats are lost. */
  lemma CommaSeparatedRoundTrip(xs: seq<string>)
    requires xs != []
    requires forall k :: 0 <= k < |xs| ==> xs[k] != "" && IsStripped(xs[k]) && ',' !in xs[k]
    ensures CommaSeparatedList(Join(",", xs)) == Ok(set x | x in xs)
  {
    var s := Join(",", xs);
    assert IsStripped(s) by {
      JoinFirst(",", xs);
      JoinLast(",", xs);
    }
    assert Split(s, ",") == xs by {
      SplitJoin(xs, ',');
    }
    assert CommaSeparatedList(s) == ItemsSet(s) by {
      ListOfStripped(s);
    }
    assert ItemsSet(s) == Ok(Survivors(xs)) by {
      assert !AllEmpty(xs);
    }
    SurvivorsOfStripped(xs);
  }

  /** `split_args` holds each pair as a `--key` flag followed by its value, in order. */
  predicate FlattensTo(pairs: seq<(string, string)>, split: seq<string>) {
    && |split| == 2 * |pairs|
    && (forall i :: 0 <= i < |pairs| ==> split[2 * i] == "--" + pairs[i].0 && split[2 * i + 1] == pairs[i].1)
  }

  /** The loop of `parse_args` that turns request parameters into command-line words. */
  method FlattenArguments(pairs: seq<(string, string)>) returns (split: seq<string>)
    ensures FlattensTo(pairs, split)
  {
    split := [];
    var i := 0;
    while i < |pairs|
      invariant i <= |pairs|
      invariant FlattensTo(pairs[..i], split)
    {
      var (key, value) := pairs[i];
      split := split + ["--" + key] + [value];
      i := i + 1;
    }
    assert pairs[..i] == pairs;
  }

  /** The words `parse_args` hands to `argparse`: the query string of a GET, the form of a
      POST or PUT; any other method gets an empty namespace (`None` here). */
  method ParseArguments(requestMethod: string, queryArgs: seq<(string, string)>, formArgs: seq<(string, string)>)
    returns (r: Option<seq<string>>)
    ensures r.None? <==> requestMethod !in {"GET", "POST", "PUT"}
    ensures requestMethod == "GET" ==> r.Some? && FlattensTo(queryArgs, r.value)
    ensures requestMethod in {"POST", "PUT"} ==> r.Some? && FlattensTo(formArgs, r.value)
  {
    if requestMethod == "GET" {
      var split := FlattenArguments(queryArgs);
      r := Some(split);
    } else if requestMethod == "POST" || requestMethod == "PUT" {
      var split := FlattenArguments(formArgs);
      r := Some(split);
    } else {
      r := None;
    }
  }

  /** The option strings a parser has registered. */
  class RequestParser {
    var options: seq<string>

    constructor()
      ensures options == []
    {
      options := [];
    }

    /** `add_argument`: registers `--urlparam` and returns the parser itself, for chaining. */
    method AddArgument(urlparam: string) returns (p: RequestParser)
      modifies this
      ensures options == old(options) + ["--" + urlparam]
      ensures p == this
    {
      options := options + ["--" + urlparam];
      p := this;
    }
  }

  /** `error`: raises an exception carrying the message instead of exiting. */
  function ParserError(message: string): (r: Result<()>)
    ensures r.Err? && r.error.kind == GenericException
    ensures |r.error.message| > |message| && r.error.message[|r.error.message| - |message| - 1..] == message + ")"
  {
    Raise(GenericException, "Failed to parse provided arguments (" + message + ")")
  }
}
