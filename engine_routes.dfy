/** The request handlers of the newer Flask engine: a tokenizer without quoting, a strict
    resolution without fall-through, argument reconciliation with quoting, and the
    listing that groups aliases per destination. */
module EngineRoutes {
  import opened Wrappers
  import opened PyStr
  import opened Quoting
  import opened PyFormat
  import opened EngineStore
  import opened Outcomes
  import opened Sorting
  import ArchiveRoutes

  /** `QueryURLParameter`: as in the archived engine, but the arguments are not quoted. */
  function QueryURLParameter(arg: string): (r: Result<(string, seq<string>)>)
    ensures r.Err? <==> AllSpace(arg)
    ensures r.Err? ==> r.error == Error(ValueError, "query must contain at least an alias")
    ensures r.Ok? ==> r.value.0 != "" && ' ' !in r.value.0 && !IsSpace(r.value.0[0])
    ensures r.Ok? ==> forall k :: 0 <= k < |r.value.1| ==> r.value.1[k] != "" && ' ' !in r.value.1[k]
  {
    var s := Strip(arg);
    if s == "" then Raise(ValueError, "query must contain at least an alias")
    else
      var parts := Split(s, " ");
      SplitFirst(s, ' ');
      SplitCharPieces(s, ' ');
      assert forall k :: 0 <= k < |parts[1..]| ==> ' ' !in parts[1..][k];
      Ok((parts[0], DropEmpty(parts[1..])))
  }

  lemma QueryOfStripped(s: string)
    requires s != "" && IsStripped(s)
    ensures QueryURLParameter(s) == Ok((Split(s, " ")[0], DropEmpty(Split(s, " ")[1..])))
  {
    StripUnchanged(s);
  }

  /** An alias and space-free tokens joined by single spaces come back as the alias and
      the tokens, the empty ones (from runs of spaces) dropped. */
  lemma QueryTokens(alias: string, ts: seq<string>)
    requires ArchiveRoutes.QueryShaped(alias, ts)
    ensures QueryURLParameter(Join(" ", [alias] + ts)) == Ok((alias, DropEmpty(ts)))
  {
    var s := Join(" ", [alias] + ts);
    ArchiveRoutes.JoinShaped(alias, ts);
    assert ([alias] + ts)[1..] == ts;
    QueryOfStripped(s);
  }

  /** The tokenizer inverts a single-space join of non-empty, space-free tokens. */
  lemma QueryRoundTrip(alias: string, ts: seq<string>)
    requires ArchiveRoutes.QueryShaped(alias, ts)
    requires forall k :: 0 <= k < |ts| ==> ts[k] != ""
    ensures QueryURLParameter(Join(" ", [alias] + ts)) == Ok((alias, ts))
  {
    QueryTokens(alias, ts);
    DropEmptyAll(ts);
  }

  /** A run of two spaces, as in `g  cats`, separates the alias from the next token like
      one space does. */
  lemma QuerySkipsEmpty(alias: string, t: string)
    requires ArchiveRoutes.QueryShaped(alias, ["", t])
    ensures QueryURLParameter(alias + " " + " " + t) == Ok((alias, [t]))
  {
    assert [alias] + ["", t] == [alias, "", t];
    JoinWithEmpty(" ", alias, t);
    QueryTokens(alias, ["", t]);
    assert ["", t] == [""] + [t];
    DropEmptyConcat([""], [t]);
    DropEmptySingleton("");
    DropEmptySingleton(t);
    assert [] + [t] == [t];
  }

  /** Where the resolution stage of `IndexRoute.get` ends: a destination, or a response. */
  datatype Resolution = Found(destination: Destination) | Respond(outcome: Outcome)

  /** The default fallback only when neither an alias nor a fallback alias is given (500
      when there is none); otherwise `list` short-circuits, and the alias, or the fallback
      alias when the alias is empty, must resolve: an unknown name is 400. */
  function Resolve(ds: seq<Destination>, als: seq<Alias>, alias: Option<string>, fallback: Option<string>)
    : (r: Resolution)
    ensures r.Found? ==> r.destination in ds
    ensures r.Respond? ==> r.outcome in {ListRedirect, BadRequest, ServerError}
    ensures !ArchiveRoutes.Truthy(alias) && !ArchiveRoutes.Truthy(fallback) ==>
      (r.Found? <==> GenDefaultFallback(ds).Ok?) && (r.Found? ==> r.destination.isDefaultFallback)
    ensures ArchiveRoutes.Truthy(alias) ==>
      if alias.value == "list" then r == Respond(ListRedirect)
      else match GenDestinationForAlias(ds, als, alias.value)
        case None => r == Respond(BadRequest)
        case Some(d) => r == Found(d)
    ensures !ArchiveRoutes.Truthy(alias) && ArchiveRoutes.Truthy(fallback) ==>
      match GenDestinationForAlias(ds, als, fallback.value)
      case None => r == Respond(BadRequest)
      case Some(d) => r == Found(d)
  {
    if !(ArchiveRoutes.Truthy(alias) || ArchiveRoutes.Truthy(fallback)) then
      match GenDefaultFallback(ds)
      case Err(_) => Respond(ServerError)
      case Ok(d) => Found(d)
    else if alias == Some("list") then Respond(ListRedirect)
    else
      var name := if ArchiveRoutes.Truthy(alias) then alias.value else fallback.value;
      match GenDestinationForAlias(ds, als, name)
      case None => Respond(BadRequest)
      case Some(d) => Found(d)
  }

  function QuoteAll(xs: seq<string>): (r: seq<string>)
    ensures |r| == |xs| && forall k :: 0 <= k < |xs| ==> r[k] == QuotePlus(xs[k])
  {
    seq(|xs|, k requires 0 <= k < |xs| => QuotePlus(xs[k]))
  }

  /** The arguments the code as written hands to `format`; `None` is a 400, which it also is
      when exactly the expected number is given, because then nothing is assigned to the
      arguments before they are used. */
  function FormattedArgumentsAsWritten(d: Destination, args: seq<string>): (r: Option<seq<string>>)
    requires d.numArgs >= 1
    ensures d.isFallback || |args| != d.numArgs ==> r == FormattedArguments(d, args)
    ensures !d.isFallback && |args| == d.numArgs ==> r.None?
  {
    if d.isFallback then Some([QuotePlus(Join(" ", args))])
    else if |args| < d.numArgs then None
    else if |args| > d.numArgs then Some(QuoteAll(ArchiveRoutes.MergeArguments(args, d.numArgs)))
    else None
  }

  /** The arguments for `format` as the route's documentation describes them: a fallback
      gets the whole text quoted as one argument; otherwise too few is a 400 and the
      reconciled arguments are quoted one by one. */
  function FormattedArguments(d: Destination, args: seq<string>): (r: Option<seq<string>>)
    requires d.numArgs >= 1
    ensures d.isFallback ==> r == Some([QuotePlus(Join(" ", args))])
    ensures !d.isFallback ==> (r.None? <==> |args| < d.numArgs)
    ensures !d.isFallback && r.Some? ==>
      r.value == QuoteAll(ArchiveRoutes.ReconcileArguments(args, d.numArgs).value) && |r.value| == d.numArgs
  {
    if d.isFallback then Some([QuotePlus(Join(" ", args))])
    else
      match ArchiveRoutes.ReconcileArguments(args, d.numArgs)
      case None => None
      case Some(xs) => Some(QuoteAll(xs))
  }

  /** `IndexRoute.get` as written, on the parsed query and fallback alias. */
  function IndexGetAsWritten(ds: seq<Destination>, als: seq<Alias>, query: Option<(string, seq<string>)>,
                             fallback: Option<string>): (o: Outcome)
    ensures o.Redirect? || o.ListRedirect? || o.BadRequest? || o.ServerError?
    ensures o != IndexGet(ds, als, query, fallback) ==>
      && o == BadRequest && query.Some?
      && var r := Resolve(ds, als, Some(query.value.0), fallback);
      && r.Found? && !r.destination.isFallback && |query.value.1| == r.destination.numArgs
  {
    var alias := if query.None? then None else Some(query.value.0);
    var arguments := if query.None? then [] else query.value.1;
    match Resolve(ds, als, alias, fallback)
    case Respond(o) => o
    case Found(d) =>
      if d.numArgs == 0 then Redirect(d.url)
      else
        match FormattedArgumentsAsWritten(d, arguments)
        case None => BadRequest
        case Some(xs) =>
          match Format(d.url, xs)
          case Ok(u) => Redirect(u)
          case Err(_) => BadRequest
  }

  /** `IndexRoute.get` with the exactly-N case passing the arguments through. */
  function IndexGet(ds: seq<Destination>, als: seq<Alias>, query: Option<(string, seq<string>)>,
                    fallback: Option<string>): (o: Outcome)
    ensures o.Redirect? || o.ListRedirect? || o.BadRequest? || o.ServerError?
    ensures query.Some? && query.value.0 == "list" ==> o == ListRedirect
  {
    var alias := if query.None? then None else Some(query.value.0);
    var arguments := if query.None? then [] else query.value.1;
    match Resolve(ds, als, alias, fallback)
    case Respond(o) => o
    case Found(d) =>
      if d.numArgs == 0 then Redirect(d.url)
      else
        match FormattedArguments(d, arguments)
        case None => BadRequest
        case Some(xs) =>
          match Format(d.url, xs)
          case Ok(u) => Redirect(u)
          case Err(_) => BadRequest
  }

  /** The defect: a direct destination given exactly as many arguments as it takes is
      always answered 400 by the code as written, whatever its url. */
  lemma ExactArgumentsRejected(ds: seq<Destination>, als: seq<Alias>, alias: string, args: seq<string>,
                               fallback: Option<string>)
    requires alias != "" && alias != "list"
    requires var d := GenDestinationForAlias(ds, als, alias);
      d.Some? && !d.value.isFallback && d.value.numArgs >= 1 && |args| == d.value.numArgs
    ensures IndexGetAsWritten(ds, als, Some((alias, args)), fallback) == BadRequest
  {
  }

  /** The intended behaviour: a direct destination whose url is a template with as many
      `{}` as it takes arguments, given at least that many, redirects to the template
      filled with the reconciled, quoted arguments. */
  lemma DirectTemplate(ds: seq<Destination>, als: seq<Alias>, alias: string, args: seq<string>,
                       fallback: Option<string>, lits: seq<string>)
    requires alias != "" && alias != "list"
    requires lits != [] && forall k :: 0 <= k < |lits| ==> BraceFree(lits[k])
    requires var d := GenDestinationForAlias(ds, als, alias);
      d.Some? && !d.value.isFallback && d.value.url == Template(lits) && d.value.numArgs == |lits| - 1 >= 1
    requires |args| >= |lits| - 1
    ensures var xs := QuoteAll(ArchiveRoutes.ReconcileArguments(args, |lits| - 1).value);
      IndexGet(ds, als, Some((alias, args)), fallback) == Redirect(Interleave(lits, xs, 0))
  {
    var d := GenDestinationForAlias(ds, als, alias).value;
    var xs := QuoteAll(ArchiveRoutes.ReconcileArguments(args, |lits| - 1).value);
    assert Resolve(ds, als, Some(alias), fallback) == Found(d);
    assert FormattedArguments(d, args) == Some(xs);
    FormatTemplate(lits, xs);
    assert Format(d.url, xs) == Ok(Interleave(lits, xs, 0));
  }

  /** With exactly N arguments the corrected route passes them, quoted, in order. */
  lemma ExactArgumentsAccepted(ds: seq<Destination>, als: seq<Alias>, alias: string, args: seq<string>,
                               fallback: Option<string>, lits: seq<string>)
    requires alias != "" && alias != "list"
    requires lits != [] && forall k :: 0 <= k < |lits| ==> BraceFree(lits[k])
    requires var d := GenDestinationForAlias(ds, als, alias);
      d.Some? && !d.value.isFallback && d.value.url == Template(lits) && d.value.numArgs == |lits| - 1 >= 1
    requires |args| == |lits| - 1
    ensures IndexGet(ds, als, Some((alias, args)), fallback) == Redirect(Interleave(lits, QuoteAll(args), 0))
  {
    DirectTemplate(ds, als, alias, args, fallback, lits);
  }

  /** A fallback destination receives every argument, without the alias, as one quoted
      argument. */
  lemma FallbackTemplate(ds: seq<Destination>, als: seq<Alias>, alias: string, args: seq<string>,
                         fallback: Option<string>, pre: string, post: string)
    requires alias != "" && alias != "list"
    requires BraceFree(pre) && BraceFree(post)
    requires var d := GenDestinationForAlias(ds, als, alias);
      d.Some? && d.value.isFallback && d.value.url == Template([pre, post]) && d.value.numArgs >= 1
    ensures IndexGet(ds, als, Some((alias, args)), fallback) == Redirect(pre + QuotePlus(Join(" ", args)) + post)
    ensures IndexGetAsWritten(ds, als, Some((alias, args)), fallback) == Redirect(pre + QuotePlus(Join(" ", args)) + post)
  {
    ArchiveRoutes.FormatOneField(pre, post, QuotePlus(Join(" ", args)));
  }

  /** A destination that takes no arguments is redirected to verbatim, in both versions. */
  lemma IndexZeroArgs(ds: seq<Destination>, als: seq<Alias>, alias: string, args: seq<string>,
                      fallback: Option<string>)
    requires var r := Resolve(ds, als, Some(alias), fallback); r.Found? && r.destination.numArgs == 0
    ensures var url := Resolve(ds, als, Some(alias), fallback).destination.url;
      IndexGet(ds, als, Some((alias, args)), fallback) == Redirect(url)
      && IndexGetAsWritten(ds, als, Some((alias, args)), fallback) == Redirect(url)
  {
  }

  /** A direct destination given fewer arguments than it takes is a bad request, in both
      versions. */
  lemma IndexTooFew(ds: seq<Destination>, als: seq<Alias>, alias: string, args: seq<string>,
                    fallback: Option<string>)
    requires var r := Resolve(ds, als, Some(alias), fallback);
      r.Found? && !r.destination.isFallback && |args| < r.destination.numArgs
    ensures IndexGet(ds, als, Some((alias, args)), fallback) == BadRequest
    ensures IndexGetAsWritten(ds, als, Some((alias, args)), fallback) == BadRequest
  {
  }

  /** An unknown alias is a bad request even when a default fallback exists. */
  lemma UnknownAliasNoFallThrough(ds: seq<Destination>, als: seq<Alias>, alias: string, args: seq<string>,
                                  fallback: Option<string>)
    requires alias != "" && alias != "list"
    requires GenDestinationForAlias(ds, als, alias).None?
    ensures IndexGet(ds, als, Some((alias, args)), fallback) == BadRequest
  {
  }

  /** `ListURLParameter(delim)(arg)` of this version keeps every piece. */
  function ListURLParameter(delim: string, arg: string): (r: Result<seq<string>>)
    ensures r.Err? <==> delim == ""
    ensures r.Err? ==> r.error.kind == ValueError
    ensures r.Ok? ==> r.value != [] && Join(delim, r.value) == Strip(arg)
    ensures r.Ok? ==> forall k :: 0 <= k < |r.value| ==> !Contains(r.value[k], delim)
    ensures r.Ok? && |delim| == 1 ==> forall k :: 0 <= k < |r.value| ==> delim[0] !in r.value[k]
  {
    if delim == "" then Raise(ValueError, "empty separator")
    else
      JoinSplit(Strip(arg), delim);
      SplitPiecesFree(Strip(arg), delim);
      if |delim| == 1 then
        assert delim == [delim[0]];
        SplitCharPieces(Strip(arg), delim[0]);
        Ok(Split(Strip(arg), delim))
      else
        Ok(Split(Strip(arg), delim))
  }

  /** The alias names of one destination, in table order. */
  function AliasesOf(als: seq<Alias>, id: nat): (r: seq<string>)
    ensures |r| <= |als|
    ensures forall name :: name in r <==> exists k :: 0 <= k < |als| && als[k].destId == id && als[k].name == name
    decreases |als|
  {
    if als == [] then []
    else
      var init := als[..|als| - 1];
      var last := als[|als| - 1];
      assert forall k :: 0 <= k < |init| ==> init[k] == als[k];
      AliasesOf(init, id) + (if last.destId == id then [last.name] else [])
  }

  lemma {:induction false} AliasesOfEmpty(als: seq<Alias>, id: nat)
    ensures AliasesOf(als, id) == [] <==> forall k :: 0 <= k < |als| ==> als[k].destId != id
    decreases |als|
  {
    if als != [] {
      AliasesOfEmpty(als[..|als| - 1], id);
      assert forall k :: 0 <= k < |als| - 1 ==> als[..|als| - 1][k] == als[k];
    }
  }

  /** The grouping the listing builds: each destination id that has aliases, with its names. */
  function AliasGroups(als: seq<Alias>): map<nat, seq<string>> {
    map id | id in (set a | a in als :: a.destId) :: AliasesOf(als, id)
  }

  /** `m` groups the first `n` alias rows. */
  ghost predicate Grouped(als: seq<Alias>, n: nat, m: map<nat, seq<string>>)
    requires n <= |als|
  {
    && (forall id :: id in m <==> exists k :: 0 <= k < n && als[k].destId == id)
    && (forall id :: id in m ==> m[id] == AliasesOf(als[..n], id))
  }

  lemma AliasesOfStep(als: seq<Alias>, i: nat, id: nat)
    requires i < |als|
    ensures AliasesOf(als[..i + 1], id) == AliasesOf(als[..i], id) + (if als[i].destId == id then [als[i].name] else [])
  {
    assert als[..i + 1][..i] == als[..i];
    assert als[..i + 1][i] == als[i];
  }

  /** Appending row `i` to its destination's names groups one row more. */
  lemma GroupStep(als: seq<Alias>, i: nat, m: map<nat, seq<string>>)
    requires i < |als| && Grouped(als, i, m)
    ensures var d := als[i].destId;
      Grouped(als, i + 1, m[d := (if d in m then m[d] else []) + [als[i].name]])
  {
    var d := als[i].destId;
    var m' := m[d := (if d in m then m[d] else []) + [als[i].name]];
    if d !in m {
      AliasesOfEmpty(als[..i], d);
      assert forall k :: 0 <= k < i ==> als[..i][k] == als[k];
    }
    forall id | id in m' ensures m'[id] == AliasesOf(als[..i + 1], id) {
      AliasesOfStep(als, i, id);
    }
  }

  lemma GroupedAll(als: seq<Alias>, m: map<nat, seq<string>>)
    requires Grouped(als, |als|, m)
    ensures m == AliasGroups(als)
  {
    assert als[..|als|] == als;
    forall id ensures id in m <==> id in AliasGroups(als) {
      if id in m {
        var k :| 0 <= k < |als| && als[k].destId == id;
        assert als[k] in als;
      }
    }
  }

  /** The grouping loop of `ListDestinationsRoute.get`. */
  method GroupAliases(als: seq<Alias>) returns (m: map<nat, seq<string>>)
    ensures m == AliasGroups(als)
  {
    m := map[];
    var i := 0;
    while i < |als|
      invariant i <= |als|
      invariant Grouped(als, i, m)
    {
      var alias := als[i];
      var names := if alias.destId in m then m[alias.destId] else [];
      GroupStep(als, i, m);
      m := m[alias.destId := names + [alias.name]];
      i := i + 1;
    }
    GroupedAll(als, m);
  }

  /** One row of the listing. */
  datatype Listed = Listed(aliases: string, description: string, url: string)

  function LengthLe(a: string, b: string): bool {
    |a| <= |b|
  }

  function UrlLe(a: Destination, b: Destination): bool {
    LexLe(a.url, b.url)
  }

  /** The listing rows for destinations in the given order; a destination without aliases
      makes `sorted(None)` raise, which the route answers with 500. */
  function ListRows(sorted: seq<Destination>, groups: map<nat, seq<string>>): (r: Result<seq<Listed>>)
    ensures r.Err? <==> exists k :: 0 <= k < |sorted| && sorted[k].id !in groups
    ensures r.Ok? ==> |r.value| == |sorted| && forall k :: 0 <= k < |sorted| ==>
      r.value[k] == Listed(Join(", ", SortBy(groups[sorted[k].id], LengthLe)), sorted[k].description, sorted[k].url)
  {
    if sorted == [] then Ok([])
    else if sorted[0].id !in groups then Raise(TypeError, "'NoneType' object is not iterable")
    else
      var d := sorted[0];
      match ListRows(sorted[1..], groups)
      case Err(e) =>
        assert exists k :: 0 <= k < |sorted[1..]| && sorted[1..][k].id !in groups;
        Err(e)
      case Ok(rest) =>
        Ok([Listed(Join(", ", SortBy(groups[d.id], LengthLe)), d.description, d.url)] + rest)
  }

  /** The rows of the listing before rendering. */
  method ListDestinations(ds: seq<Destination>, als: seq<Alias>) returns (r: Result<seq<Listed>>)
    ensures r == ListRows(SortBy(ds, UrlLe), AliasGroups(als))
  {
    var groups := GroupAliases(als);
    r := ListRows(SortBy(ds, UrlLe), groups);
  }

  lemma LengthOrder()
    ensures TotalPreorder(LengthLe)
  {
  }

  lemma UrlOrder()
    ensures TotalPreorder(UrlLe)
  {
    forall a: Destination, b: Destination ensures UrlLe(a, b) || UrlLe(b, a) {
      LexLeTotal(a.url, b.url);
    }
    forall a: Destination, b: Destination, c: Destination | UrlLe(a, b) && UrlLe(b, c) ensures UrlLe(a, c) {
      LexLeTransitive(a.url, b.url, c.url);
    }
  }

  lemma GroupsDomain(als: seq<Alias>, id: nat)
    ensures id in AliasGroups(als) <==> AliasesOf(als, id) != []
  {
    AliasesOfEmpty(als, id);
    if AliasesOf(als, id) != [] {
      var k :| 0 <= k < |als| && als[k].destId == id;
      assert als[k] in als;
    }
  }

  lemma SameElements(ds: seq<Destination>, d: Destination)
    ensures d in ds <==> d in SortBy(ds, UrlLe)
  {
    var sorted := SortBy(ds, UrlLe);
    assert d in ds <==> d in multiset(ds);
    assert d in sorted <==> d in multiset(sorted);
  }

  /** The listing fails exactly when some destination has no alias. */
  lemma ListingFails(ds: seq<Destination>, als: seq<Alias>)
    ensures ListRows(SortBy(ds, UrlLe), AliasGroups(als)).Err? <==>
      exists d :: d in ds && AliasesOf(als, d.id) == []
  {
    var sorted := SortBy(ds, UrlLe);
    var groups := AliasGroups(als);
    if ListRows(sorted, groups).Err? {
      var k :| 0 <= k < |sorted| && sorted[k].id !in groups;
      SameElements(ds, sorted[k]);
      GroupsDomain(als, sorted[k].id);
    }
    if d :| d in ds && AliasesOf(als, d.id) == [] {
      SameElements(ds, d);
      GroupsDomain(als, d.id);
      var k :| 0 <= k < |sorted| && sorted[k] == d;
    }
  }

  /** A listing holds every destination once, ordered by url, and each row's aliases are its
      own names ordered by length (equal lengths in table order, see `AliasesStable`). */
  lemma ListingRows(ds: seq<Destination>, als: seq<Alias>)
    ensures var r := ListRows(SortBy(ds, UrlLe), AliasGroups(als));
      var sorted := SortBy(ds, UrlLe);
      && multiset(sorted) == multiset(ds)
      && (r.Ok? ==>
        && |r.value| == |ds|
        && (forall i, j :: 0 <= i < j < |r.value| ==> LexLe(r.value[i].url, r.value[j].url))
        && (forall k :: 0 <= k < |ds| ==>
              r.value[k] == Listed(Join(", ", SortBy(AliasesOf(als, sorted[k].id), LengthLe)),
                                   sorted[k].description, sorted[k].url)))
  {
    var sorted := SortBy(ds, UrlLe);
    UrlOrder();
    SortBySorted(ds, UrlLe);
    forall k | 0 <= k < |ds| ensures sorted[k].id in AliasGroups(als) ==>
      AliasGroups(als)[sorted[k].id] == AliasesOf(als, sorted[k].id) {
    }
  }

  /** Within one row, names of equal length keep their table order. */
  lemma AliasesStable(als: seq<Alias>, id: nat, z: string)
    ensures Equivalents(SortBy(AliasesOf(als, id), LengthLe), z, LengthLe) == Equivalents(AliasesOf(als, id), z, LengthLe)
  {
    LengthOrder();
    SortByStable(AliasesOf(als, id), z, LengthLe);
  }
}
