/** The request handlers of the archived Flask engine: the query tokenizer, the
    alias → fallback alias → default fallback resolution, argument reconciliation and the
    redirect, plus the list and boolean parameter parsers. The store is passed in as its
    two tables. */
module ArchiveRoutes {
  import opened Wrappers
  import opened PyStr
  import opened Quoting
  import opened PyFormat
  import opened EngineStore
  import opened Outcomes

  /** `[quote_plus(t) for t in ts if t != ""]`. */
  function QuotedArguments(ts: seq<string>): (r: seq<string>)
    ensures |r| <= |ts|
    ensures forall k :: 0 <= k < |r| ==> r[k] != "" && ' ' !in r[k]
  {
    if ts == [] then []
    else
      var rest := QuotedArguments(ts[1..]);
      if ts[0] == "" then rest
      else
        QuotePlusSafe(ts[0]);
        QuotePlusNonEmpty(ts[0]);
        [QuotePlus(ts[0])] + rest
  }

  lemma QuotePlusNonEmpty(s: string)
    requires s != ""
    ensures QuotePlus(s) != ""
  {
    var bs := Utf8Encode(s);
    assert bs == Utf8(s[0]) + Utf8Encode(s[1..]);
    assert QuoteBytes(bs) == QuoteByte(bs[0]) + QuoteBytes(bs[1..]);
  }

  /** Without empty tokens every token is kept, quoted, in order. */
  lemma {:induction false} QuotedArgumentsAll(ts: seq<string>)
    requires forall k :: 0 <= k < |ts| ==> ts[k] != ""
    ensures var r := QuotedArguments(ts); |r| == |ts| && forall k :: 0 <= k < |ts| ==> r[k] == QuotePlus(ts[k])
    decreases |ts|
  {
    if ts != [] {
      var rest := QuotedArguments(ts[1..]);
      var r := [QuotePlus(ts[0])] + rest;
      assert QuotedArguments(ts) == r by {
        assert ts[0] != "";
      }
      QuotedArgumentsAll(ts[1..]);
      forall k | 0 < k < |ts| ensures r[k] == QuotePlus(ts[k]) {
        assert r[k] == rest[k - 1] && ts[1..][k - 1] == ts[k];
      }
    }
  }

  /** The filter and the quoting distribute over concatenation. */
  lemma {:induction false} QuotedArgumentsConcat(a: seq<string>, b: seq<string>)
    ensures QuotedArguments(a + b) == QuotedArguments(a) + QuotedArguments(b)
    decreases |a|
  {
    if a == [] {
      assert a + b == b;
    } else {
      assert (a + b)[1..] == a[1..] + b;
      QuotedArgumentsConcat(a[1..], b);
      if a[0] != "" {
        var x, y, z := [QuotePlus(a[0])], QuotedArguments(a[1..]), QuotedArguments(b);
        assert x + (y + z) == (x + y) + z;
      }
    }
  }

  /** An empty token is dropped; any other is kept, quoted. */
  lemma QuotedArgumentsSingleton(t: string)
    ensures QuotedArguments([t]) == if t == "" then [] else [QuotePlus(t)]
  {
    assert [t][1..] == [];
  }

  /** `QueryURLParameter`: the first space-delimited token of the stripped query is the
      alias; the other non-empty tokens, quoted, are the arguments. */
  function QueryURLParameter(arg: string): (r: Result<(string, seq<string>)>)
    ensures r.Err? <==> AllSpace(arg)
    ensures r.Err? ==> r.error == Error(ValueError, "query must contain at least an alias")
    ensures r.Ok? ==> r.value.0 != "" && ' ' !in r.value.0 && !IsSpace(r.value.0[0])
    ensures r.Ok? ==> forall k :: 0 <= k < |r.value.1| ==> r.value.1[k] != "" && ' ' !in r.value.1[k]
  {
    var s := Strip(arg);
    if s == "" then Raise(ValueError, "query must contain at least an alias")
    else
      var parts := Split(s, " ");
      SplitFirst(s, ' ');
      SplitCharPieces(s, ' ');
      Ok((parts[0], QuotedArguments(parts[1..])))
  }

  /** The text `QueryURLParameter` reads back as the alias followed by the tokens: no
      token holds a space, the alias is non-empty and the whole neither starts nor ends
      with whitespace. */
  predicate QueryShaped(alias: string, ts: seq<string>) {
    && alias != "" && ' ' !in alias && !IsSpace(alias[0])
    && (forall k :: 0 <= k < |ts| ==> ' ' !in ts[k])
    && (if ts == [] then !IsSpace(alias[|alias| - 1])
        else ts[|ts| - 1] != "" && !IsSpace(ts[|ts| - 1][|ts[|ts| - 1]| - 1]))
  }

  /** An alias and tokens joined by single spaces come back as they were, the tokens quoted
      and the empty ones (from runs of spaces) dropped. */
  lemma QueryRoundTrip(alias: string, ts: seq<string>)
    requires QueryShaped(alias, ts)
    ensures QueryURLParameter(Join(" ", [alias] + ts)) == Ok((alias, QuotedArguments(ts)))
  {
    JoinShaped(alias, ts);
    QueryOfStripped(Join(" ", [alias] + ts));
  }

  /** A run of two spaces, as in `g  cats`, separates the alias from the next token like
      one space does. */
  lemma QuerySkipsEmpty(alias: string, t: string)
    requires QueryShaped(alias, ["", t])
    ensures QueryURLParameter(alias + " " + " " + t) == Ok((alias, [QuotePlus(t)]))
  {
    assert [alias] + ["", t] == [alias, "", t];
    JoinWithEmpty(" ", alias, t);
    QueryRoundTrip(alias, ["", t]);
    assert ["", t] == [""] + [t];
    QuotedArgumentsConcat([""], [t]);
    QuotedArgumentsSingleton("");
    QuotedArgumentsSingleton(t);
    assert [] + [QuotePlus(t)] == [QuotePlus(t)];
  }

  /** A shaped alias and tokens join into stripped text that splits back into them. */
  lemma JoinShaped(alias: string, ts: seq<string>)
    requires QueryShaped(alias, ts)
    ensures var s := Join(" ", [alias] + ts);
      s != "" && IsStripped(s) && Split(s, " ") == [alias] + ts
  {
    var xs := [alias] + ts;
    JoinShapedStripped(alias, ts);
    forall k | 0 <= k < |xs| ensures ' ' !in xs[k] {
      if k > 0 {
        assert xs[k] == ts[k - 1];
      }
    }
    SplitJoin(xs, ' ');
  }

  lemma JoinShapedStripped(alias: string, ts: seq<string>)
    requires QueryShaped(alias, ts)
    ensures var s := Join(" ", [alias] + ts); s != "" && IsStripped(s)
  {
    var xs := [alias] + ts;
    assert xs[0] == alias;
    JoinFirst(" ", xs);
    if ts == [] {
      assert xs[|xs| - 1] == alias;
    } else {
      assert xs[|xs| - 1] == ts[|ts| - 1];
    }
    JoinLast(" ", xs);
  }

  /** Text that is already stripped is split as it is. */
  lemma QueryOfStripped(s: string)
    requires s != "" && IsStripped(s)
    ensures QueryURLParameter(s) == Ok((Split(s, " ")[0], QuotedArguments(Split(s, " ")[1..])))
  {
    StripUnchanged(s);
  }

  /** Python truthiness of an optional string. */
  predicate Truthy(s: Option<string>) {
    s.Some? && s.value != ""
  }

  /** `IndexRoute._resolve_destination_for_query`: the alias's destination, else the
      fallback alias's, else the default fallback; the flag says whether the choice was a
      fallback. No default fallback means 500. */
  function ResolveDestinationForQuery(ds: seq<Destination>, als: seq<Alias>, alias: Option<string>,
                                      fallback: Option<string>): (r: Result<(Destination, bool)>)
    ensures r.Ok? ==> r.value.0 in ds
    ensures Truthy(alias) && GenDestinationForAlias(ds, als, alias.value).Some? ==>
      r == Ok((GenDestinationForAlias(ds, als, alias.value).value, false))
    ensures r.Ok? && !r.value.1 ==> Truthy(alias) && GenDestinationForAlias(ds, als, alias.value) == Some(r.value.0)
    ensures r.Ok? && r.value.1 ==>
      (Truthy(fallback) && GenDestinationForAlias(ds, als, fallback.value) == Some(r.value.0))
      || r.value.0.isDefaultFallback
    ensures r.Err? <==>
      (!Truthy(alias) || GenDestinationForAlias(ds, als, alias.value).None?)
      && (!Truthy(fallback) || GenDestinationForAlias(ds, als, fallback.value).None?)
      && forall k :: 0 <= k < |ds| ==> !ds[k].isDefaultFallback
  {
    var byAlias := if Truthy(alias) then GenDestinationForAlias(ds, als, alias.value) else None;
    if byAlias.Some? then Ok((byAlias.value, false))
    else
      var byFallback := if Truthy(fallback) then GenDestinationForAlias(ds, als, fallback.value) else None;
      if byFallback.Some? then Ok((byFallback.value, true))
      else
        match GenDefaultFallback(ds)
        case Ok(d) => Ok((d, true))
        case Err(e) => Err(e)
  }

  /** `args[n-1] = " ".join(args[n-1:]); args = args[:n]`. */
  function MergeArguments(args: seq<string>, n: nat): (r: seq<string>)
    requires 1 <= n <= |args|
    ensures |r| == n && r[..n - 1] == args[..n - 1]
    ensures Join(" ", r) == Join(" ", args)
  {
    var r := args[..n - 1] + [Join(" ", args[n - 1..])];
    if n == 1 then
      assert args[0..] == args;
      r
    else
      JoinAppend(" ", args[..n - 1], Join(" ", args[n - 1..]));
      JoinConcat(" ", args[..n - 1], args[n - 1..]);
      assert args[..n - 1] + args[n - 1..] == args;
      assert r[..n - 1] == args[..n - 1];
      r
  }

  /** Direct resolution of the arguments for a destination taking `n >= 1` of them: too few
      is a bad request, too many are merged into the last slot. */
  function ReconcileArguments(args: seq<string>, n: nat): (r: Option<seq<string>>)
    requires n >= 1
    ensures r.None? <==> |args| < n
    ensures r.Some? ==> |r.value| == n && r.value[..n - 1] == args[..n - 1]
    ensures r.Some? ==> Join(" ", r.value) == Join(" ", args)
    ensures |args| == n ==> r == Some(args)
  {
    if |args| < n then None
    else if |args| > n then Some(MergeArguments(args, n))
    else Some(args)
  }

  /** The final `format` and redirect: a failed format redirects to the default fallback
      formatted with `""`, and a failure there is 500. */
  function FormatOrDefault(ds: seq<Destination>, url: string, args: seq<string>): (o: Outcome)
    ensures Format(url, args).Ok? ==> o == Redirect(Format(url, args).value)
    ensures Format(url, args).Err? ==>
      (o.Redirect? <==> GenDefaultFallback(ds).Ok? && Format(GenDefaultFallback(ds).value.url, [""]).Ok?)
    ensures Format(url, args).Err? && o.Redirect? ==> o.url == Format(GenDefaultFallback(ds).value.url, [""]).value
    ensures o.Redirect? || o.ServerError?
  {
    match Format(url, args)
    case Ok(u) => Redirect(u)
    case Err(_) =>
      match GenDefaultFallback(ds)
      case Err(_) => ServerError
      case Ok(df) =>
        match Format(df.url, [""])
        case Ok(u) => Redirect(u)
        case Err(_) => ServerError
  }

  /** `IndexRoute.get` on the parsed query (alias and quoted arguments) and fallback alias. */
  function IndexGet(ds: seq<Destination>, als: seq<Alias>, query: Option<(string, seq<string>)>,
                    fallback: Option<string>): (o: Outcome)
    ensures query.Some? && query.value.0 == "list" ==> o == ListRedirect
    ensures o.ListRedirect? ==> query.Some? && query.value.0 == "list"
    ensures !o.ListRedirect? ==>
      var alias := if query.None? then None else Some(query.value.0);
      (ResolveDestinationForQuery(ds, als, alias, fallback).Err? ==> o == ServerError)
    ensures o.BadRequest? ==>
      query.Some? && ResolveDestinationForQuery(ds, als, Some(query.value.0), fallback).Ok?
      && |query.value.1| < ResolveDestinationForQuery(ds, als, Some(query.value.0), fallback).value.0.numArgs
  {
    var alias := if query.None? then None else Some(query.value.0);
    var arguments := if query.None? then [] else query.value.1;
    if alias == Some("list") then ListRedirect
    else
      match ResolveDestinationForQuery(ds, als, alias, fallback)
      case Err(_) => ServerError
      case Ok((d, asFallback)) =>
        if d.numArgs == 0 then Redirect(d.url)
        else if asFallback then
          // `" ".join([None])` raises outside the `try`.
          if alias.None? then ServerError
          else FormatOrDefault(ds, d.url, [Join(" ", [alias.value] + arguments)])
        else
          match ReconcileArguments(arguments, d.numArgs)
          case None => BadRequest
          case Some(xs) => FormatOrDefault(ds, d.url, xs)
  }

  /** A destination that takes no arguments is reached verbatim, whatever the arguments. */
  lemma IndexZeroArgs(ds: seq<Destination>, als: seq<Alias>, alias: string, args: seq<string>,
                      fallback: Option<string>)
    requires alias != "list"
    requires var r := ResolveDestinationForQuery(ds, als, Some(alias), fallback);
      r.Ok? && r.value.0.numArgs == 0
    ensures IndexGet(ds, als, Some((alias, args)), fallback)
      == Redirect(ResolveDestinationForQuery(ds, als, Some(alias), fallback).value.0.url)
  {
  }

  /** A resolved alias whose destination wants more arguments than given is a bad request. */
  lemma IndexTooFew(ds: seq<Destination>, als: seq<Alias>, alias: string, args: seq<string>,
                    fallback: Option<string>)
    requires alias != "list" && alias != ""
    requires var d := GenDestinationForAlias(ds, als, alias); d.Some? && |args| < d.value.numArgs
    ensures IndexGet(ds, als, Some((alias, args)), fallback) == BadRequest
  {
  }

  /** A resolved alias whose url is a template of `n` `{}` fields and which takes `n`
      arguments redirects to the template filled with the reconciled arguments. */
  lemma IndexDirectTemplate(ds: seq<Destination>, als: seq<Alias>, alias: string, args: seq<string>,
                            fallback: Option<string>, lits: seq<string>)
    requires alias != "list" && alias != ""
    requires lits != [] && forall k :: 0 <= k < |lits| ==> BraceFree(lits[k])
    requires var d := GenDestinationForAlias(ds, als, alias);
      d.Some? && d.value.url == Template(lits) && d.value.numArgs == |lits| - 1 >= 1
    requires |args| >= |lits| - 1
    ensures var xs := ReconcileArguments(args, |lits| - 1).value;
      IndexGet(ds, als, Some((alias, args)), fallback) == Redirect(Interleave(lits, xs, 0))
  {
    var d := GenDestinationForAlias(ds, als, alias).value;
    var xs := ReconcileArguments(args, |lits| - 1).value;
    assert ResolveDestinationForQuery(ds, als, Some(alias), fallback) == Ok((d, false));
    FormatTemplate(lits, xs);
    assert FormatOrDefault(ds, d.url, xs) == Redirect(Interleave(lits, xs, 0));
  }

  /** A query resolved through the fallback alias puts the whole query text, alias
      included, into the fallback's single field. */
  lemma IndexFallbackTemplate(ds: seq<Destination>, als: seq<Alias>, alias: string, args: seq<string>,
                              fallback: string, pre: string, post: string)
    requires alias != "list"
    requires alias == "" || GenDestinationForAlias(ds, als, alias).None?
    requires fallback != ""
    requires BraceFree(pre) && BraceFree(post)
    requires var d := GenDestinationForAlias(ds, als, fallback);
      d.Some? && d.value.url == Template([pre, post]) && d.value.numArgs >= 1
    ensures IndexGet(ds, als, Some((alias, args)), Some(fallback)) == Redirect(pre + Join(" ", [alias] + args) + post)
  {
    FormatOneField(pre, post, Join(" ", [alias] + args));
  }

  /** A one-field template formatted with one argument. */
  lemma FormatOneField(pre: string, post: string, x: string)
    requires BraceFree(pre) && BraceFree(post)
    ensures Format(Template([pre, post]), [x]) == Ok(pre + x + post)
  {
    FormatTemplate([pre, post], [x]);
    assert Interleave([pre, post], [x], 0) == pre + x + post;
  }

  /** Without any match and without a default fallback the answer is 500. */
  lemma IndexNoDestination(ds: seq<Destination>, als: seq<Alias>, alias: string, args: seq<string>,
                           fallback: Option<string>)
    requires alias != "list"
    requires alias == "" || GenDestinationForAlias(ds, als, alias).None?
    requires !Truthy(fallback) || GenDestinationForAlias(ds, als, fallback.value).None?
    requires forall k :: 0 <= k < |ds| ==> !ds[k].isDefaultFallback
    ensures IndexGet(ds, als, Some((alias, args)), fallback) == ServerError
  {
  }

  /** A url that cannot be formatted sends the request to the default fallback's template
      with an empty query. */
  lemma FormatFailureUsesDefault(ds: seq<Destination>, url: string, args: seq<string>, pre: string, post: string)
    requires Format(url, args).Err?
    requires BraceFree(pre) && BraceFree(post)
    requires GenDefaultFallback(ds).Ok? && GenDefaultFallback(ds).value.url == Template([pre, post])
    ensures FormatOrDefault(ds, url, args) == Redirect(pre + post)
  {
    FormatOneField(pre, post, "");
    EmptyMiddle(pre, post);
  }

  lemma EmptyMiddle(a: string, b: string)
    ensures a + "" + b == a + b
  {
  }

  /** `[t.strip() for t in ts if t]`. */
  function StrippedItems(ts: seq<string>): (r: seq<string>)
    ensures |r| <= |ts|
    ensures forall k :: 0 <= k < |r| ==> IsStripped(r[k])
  {
    if ts == [] then []
    else
      var rest := StrippedItems(ts[1..]);
      if ts[0] == "" then rest
      else [Strip(ts[0])] + rest
  }

  /** The filter and the stripping distribute over concatenation. */
  lemma {:induction false} StrippedItemsConcat(a: seq<string>, b: seq<string>)
    ensures StrippedItems(a + b) == StrippedItems(a) + StrippedItems(b)
    decreases |a|
  {
    if a == [] {
      assert a + b == b;
    } else {
      assert (a + b)[1..] == a[1..] + b;
      StrippedItemsConcat(a[1..], b);
      if a[0] != "" {
        var x, y, z := [Strip(a[0])], StrippedItems(a[1..]), StrippedItems(b);
        assert x + (y + z) == (x + y) + z;
      }
    }
  }

  /** An empty item is dropped; any other is kept, stripped (to `""` when it is blank). */
  lemma StrippedItemsSingleton(t: string)
    ensures StrippedItems([t]) == if t == "" then [] else [Strip(t)]
  {
    assert [t][1..] == [];
  }

  lemma {:induction false} StrippedItemsUnchanged(ts: seq<string>)
    requires forall k :: 0 <= k < |ts| ==> ts[k] != "" && IsStripped(ts[k])
    ensures StrippedItems(ts) == ts
    decreases |ts|
  {
    if ts != [] {
      var x, rest := ts[0], ts[1..];
      assert ts == [x] + rest;
      StrippedItemsUnchanged(rest);
      StrippedItemsCons(x, rest);
    }
  }

  lemma StrippedItemsCons(x: string, rest: seq<string>)
    requires x != "" && IsStripped(x)
    ensures StrippedItems([x] + rest) == [x] + StrippedItems(rest)
  {
    assert ([x] + rest)[1..] == rest;
    StripUnchanged(x);
  }

  /** Text that is already stripped is split as it is. */
  lemma ListOfStripped(delim: string, s: string)
    requires delim != "" && IsStripped(s)
    ensures ListURLParameter(delim, s) == Ok(StrippedItems(Split(s, delim)))
  {
    StripUnchanged(s);
  }

  /** `ListURLParameter(delim)(arg)`; an empty delimiter makes `split` raise. */
  function ListURLParameter(delim: string, arg: string): (r: Result<seq<string>>)
    ensures r.Err? <==> delim == ""
    ensures r.Err? ==> r.error.kind == ValueError
    ensures r.Ok? ==> |r.value| <= |Split(Strip(arg), delim)|
    ensures r.Ok? ==> forall k :: 0 <= k < |r.value| ==> IsStripped(r.value[k])
  {
    if delim == "" then Raise(ValueError, "empty separator")
    else Ok(StrippedItems(Split(Strip(arg), delim)))
  }

  /** An empty piece between two stripped ones is dropped and both are kept, in order. */
  lemma StrippedItemsMiddle(a: string, t: string)
    requires a != "" && t != "" && IsStripped(a) && IsStripped(t)
    ensures StrippedItems([a, "", t]) == [a, t]
  {
    assert [a, "", t] == [a] + ["", t] && ["", t][1..] == [t];
    StrippedItemsCons(a, ["", t]);
    StrippedItemsSingleton(t);
    StripUnchanged(t);
  }

  /** Text made of pieces free of a one-character delimiter, and neither starting nor
      ending with whitespace, parses as those pieces with the empty ones dropped and the
      others stripped. */
  lemma ListOfPieces(c: char, xs: seq<string>)
    requires xs != [] && IsStripped(Join([c], xs))
    requires forall k :: 0 <= k < |xs| ==> c !in xs[k]
    ensures ListURLParameter([c], Join([c], xs)) == Ok(StrippedItems(xs))
  {
    ListOfStripped([c], Join([c], xs));
    SplitJoin(xs, c);
  }

  /** A doubled delimiter between two items, as in `a,,cats`, lists just the two items. */
  lemma ListSkipsEmpty(c: char, a: string, t: string)
    requires a != "" && t != "" && IsStripped(a) && IsStripped(t) && c !in a && c !in t
    ensures ListURLParameter([c], a + [c] + [c] + t) == Ok([a, t])
  {
    var xs := [a, "", t];
    JoinWithEmpty([c], a, t);
    assert IsStripped(a + [c] + [c] + t) by {
      var u := a + [c] + [c] + t;
      assert u[0] == a[0] && u[|u| - 1] == t[|t| - 1];
    }
    assert forall k :: 0 <= k < |xs| ==> c !in xs[k];
    ListOfPieces(c, xs);
    StrippedItemsMiddle(a, t);
  }

  /** Stripped, non-empty items free of a one-character delimiter survive a join and a parse. */
  lemma ListRoundTrip(c: char, xs: seq<string>)
    requires xs != []
    requires forall k :: 0 <= k < |xs| ==> xs[k] != "" && IsStripped(xs[k]) && c !in xs[k]
    ensures ListURLParameter([c], Join([c], xs)) == Ok(xs)
  {
    var s := Join([c], xs);
    JoinFirst([c], xs);
    JoinLast([c], xs);
    assert IsStripped(xs[0]) && IsStripped(xs[|xs| - 1]);
    assert IsStripped(s);
    ListOfStripped([c], s);
    SplitJoin(xs, c);
    StrippedItemsUnchanged(xs);
  }

  const TrueStrings: set<string> := {"true", "t", "yes", "y", "1"}

  /** `StringBool`: true exactly for the lower-cased forms in `TrueStrings`. */
  function StringBool(arg: string): (r: bool)
    ensures r <==> Lower(arg) in TrueStrings
    ensures r ==> 1 <= |arg| <= 4
  {
    Lower(arg) in TrueStrings
  }

  lemma {:induction false} LowerIdempotent(s: string)
    ensures Lower(Lower(s)) == Lower(s)
  {
    assert forall k :: 0 <= k < |s| ==> LowerChar(LowerChar(s[k])) == LowerChar(s[k]);
  }

  /** `StringBool` ignores case: adjusting the case of the text never changes the answer. */
  lemma StringBoolIgnoresCase(arg: string)
    ensures StringBool(Lower(arg)) == StringBool(arg)
  {
    LowerIdempotent(arg);
  }

  /** Upper-case and mixed-case spellings of the true words are true. */
  lemma StringBoolTrueExamples()
    ensures StringBool("TRUE") && StringBool("Yes") && StringBool("T") && StringBool("1")
  {
    assert Lower("TRUE") == "true";
    assert Lower("Yes") == "yes";
    assert Lower("T") == "t";
    assert Lower("1") == "1";
  }

  /** The false words, digits other than `1` and the empty text are false. */
  lemma StringBoolFalseExamples()
    ensures !StringBool("false") && !StringBool("no") && !StringBool("0") && !StringBool("")
  {
    assert Lower("false") == "false";
    assert Lower("no") == "no";
    assert Lower("0") == "0";
  }
}
