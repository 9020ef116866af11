/** The 2018 engine: destinations carry their aliases, their argument rows and a
    fallback priority; unresolved queries go to a fallback filled in with `%`; new
    destinations are posted to `/new`. */
module LegacyRoutes {
  import opened Wrappers
  import opened PyStr
  import opened Quoting
  import opened PyFormat
  import opened Outcomes
  import ArchiveRoutes

  /** Where a request without a usable query is sent. */
  const StatusCodesPage := "https://www.w3.org/Protocols/rfc2616/rfc2616-sec10.html"

  /** An `Argument` row: its type column is checked against `string` and `nargs`. */
  datatype Argument = Argument(name: string, argType: string, default: Option<string>)

  /** A `Destination` row with its `aliases` and `args` relationships. The aliases are a set
      because the only way to add them is from a set of names, and the table's
      `(dest_id, name)` constraint keeps them distinct. */
  datatype Destination = Destination(url: string, isFallback: bool, priority: Option<int>,
                                     aliases: set<string>, args: seq<Argument>)

  /** SQLite's ascending order on a nullable integer column: NULL sorts before every value. */
  predicate PriorityBefore(a: Option<int>, b: Option<int>) {
    a.None? || (b.Some? && a.value <= b.value)
  }

  /** `.first()` of a filtered query, taken as the first matching row in table order. */
  function FirstWhere(ds: seq<Destination>, p: Destination -> bool): (r: Option<Destination>)
    ensures r.None? <==> forall k :: 0 <= k < |ds| ==> !p(ds[k])
    ensures r.Some? ==> r.value in ds && p(r.value)
  {
    if ds == [] then None
    else if p(ds[0]) then Some(ds[0])
    else
      var rest := FirstWhere(ds[1..], p);
      assert forall k :: 1 <= k < |ds| ==> ds[1..][k - 1] == ds[k];
      rest
  }

  /** `_resolve_alias`: a destination holding an alias with exactly this name. */
  function ResolveAlias(ds: seq<Destination>, alias: string): (r: Option<Destination>)
    ensures r.None? <==> forall k :: 0 <= k < |ds| ==> alias !in ds[k].aliases
    ensures r.Some? ==> r.value in ds && alias in r.value.aliases
  {
    FirstWhere(ds, (d: Destination) => alias in d.aliases)
  }

  /** The fallback with the lowest priority in SQLite order (NULL first); among equals the
      first in table order. */
  function LowestPriorityFallback(ds: seq<Destination>): (r: Option<Destination>)
    ensures r.None? <==> forall k :: 0 <= k < |ds| ==> !ds[k].isFallback
    ensures r.Some? ==> r.value in ds && r.value.isFallback
    ensures r.Some? ==> forall k :: 0 <= k < |ds| && ds[k].isFallback ==> PriorityBefore(r.value.priority, ds[k].priority)
  {
    if ds == [] then None
    else
      var rest := LowestPriorityFallback(ds[1..]);
      assert forall k :: 1 <= k < |ds| ==> ds[1..][k - 1] == ds[k];
      if !ds[0].isFallback then rest
      else if rest.None? || PriorityBefore(ds[0].priority, rest.value.priority) then Some(ds[0])
      else rest
  }

  /** The fallback `_direct_to_fallback` picks: the named one if it is a fallback, otherwise
      the one with the lowest priority. */
  function ChooseFallback(ds: seq<Destination>, fallback: Option<string>): (r: Option<Destination>)
    ensures r.None? <==> forall k :: 0 <= k < |ds| ==> !ds[k].isFallback
    ensures r.Some? ==> r.value in ds && r.value.isFallback
    ensures fallback.Some? && (exists k :: 0 <= k < |ds| && ds[k].isFallback && fallback.value in ds[k].aliases) ==>
      r.Some? && fallback.value in r.value.aliases
    ensures (fallback.None? || forall k :: 0 <= k < |ds| ==> !(ds[k].isFallback && fallback.value in ds[k].aliases)) ==>
      r == LowestPriorityFallback(ds)
  {
    var named := if fallback.Some? then FirstWhere(ds, (d: Destination) => d.isFallback && fallback.value in d.aliases) else None;
    if named.Some? then named else LowestPriorityFallback(ds)
  }

  /** `_direct_to_fallback`: the chosen fallback's url with `%s` replaced by the quoted
      query. No fallback at all, or a url `%` cannot fill, raises and is answered 500. */
  function DirectToFallback(ds: seq<Destination>, fallback: Option<string>, query: string): (o: Outcome)
    ensures o.Redirect? || o == ServerError
    ensures ChooseFallback(ds, fallback).None? ==> o == ServerError
  {
    match ChooseFallback(ds, fallback)
    case None => ServerError
    case Some(d) =>
      match PercentFormat(d.url, QuotePlus(query))
      case Ok(u) => Redirect(u)
      case Err(_) => ServerError
  }

  /** `_direct_to_destination`: a destination with argument rows or the fallback flag gets
      the arguments (or its first argument's default) quoted into its url; any other is
      used verbatim. */
  function DirectToDestination(d: Destination, arguments: Option<seq<string>>): (o: Outcome)
    ensures o.Redirect? || o == ServerError
    ensures |d.args| == 0 && !d.isFallback ==> o == Redirect(d.url)
    ensures (|d.args| > 0 || d.isFallback) && arguments.None? && (|d.args| == 0 || d.args[0].default.None?) ==>
      o == ServerError
  {
    if |d.args| > 0 || d.isFallback then
      var arg := if arguments.Some? then Some(Strip(Join(" ", arguments.value)))
                 else if |d.args| == 0 then None   // `args[0]` raises IndexError
                 else d.args[0].default;           // `quote_plus(None)` raises TypeError
      match arg
      case None => ServerError
      case Some(a) =>
        match PercentFormat(d.url, QuotePlus(a))
        case Ok(u) => Redirect(u)
        case Err(_) => ServerError
    else Redirect(d.url)
  }

  /** The alias of a query and its arguments: `None` when nothing follows the alias, and
      the empty tokens of repeated spaces kept. */
  function SplitQuery(query: string): (r: (string, Option<seq<string>>))
    ensures ' ' !in r.0
    ensures r.1.Some? ==> r.1.value != []
    ensures Join(" ", [r.0] + (if r.1.Some? then r.1.value else [])) == Strip(query)
  {
    var parts := Split(Strip(query), " ");
    JoinSplit(Strip(query), " ");
    SplitCharPieces(Strip(query), ' ');
    assert parts == [parts[0]] + parts[1..];
    (parts[0], if |parts| > 1 then Some(parts[1..]) else None)
  }

  lemma SplitQueryOfStripped(s: string)
    requires s != "" && IsStripped(s)
    ensures var parts := Split(s, " ");
      SplitQuery(s) == (parts[0], if |parts| > 1 then Some(parts[1..]) else None)
  {
    StripUnchanged(s);
  }

  /** Splitting inverts a single-space join of the alias and its tokens. */
  lemma SplitQueryRoundTrip(alias: string, ts: seq<string>)
    requires ArchiveRoutes.QueryShaped(alias, ts)
    ensures SplitQuery(Join(" ", [alias] + ts)) == (alias, if ts == [] then None else Some(ts))
  {
    var s := Join(" ", [alias] + ts);
    ArchiveRoutes.JoinShaped(alias, ts);
    assert ([alias] + ts)[1..] == ts;
    SplitQueryOfStripped(s);
  }

  /** `IndexRoute._make_response` on the parsed request: `None` when the parameters cannot
      be parsed, otherwise the `fallback` and `query` parameters. */
  function MakeResponse(ds: seq<Destination>, request: Option<(Option<string>, Option<string>)>): (o: Outcome)
    ensures request.None? || request.value.1.None? ==> o == Redirect(StatusCodesPage)
    ensures o.Redirect? || o == ServerError
  {
    match request
    case None => Redirect(StatusCodesPage)
    case Some((fallback, query)) =>
      match query
      case None => Redirect(StatusCodesPage)
      case Some(q) =>
        var (alias, arguments) := SplitQuery(q);
        match ResolveAlias(ds, alias)
        case None => DirectToFallback(ds, fallback, q)
        case Some(d) => DirectToDestination(d, arguments)
  }

  /** An alias nobody holds sends the whole query, alias included, to the chosen fallback's
      `%s` slot. */
  lemma UnresolvedQueryToFallback(ds: seq<Destination>, fallback: Option<string>, q: string, pre: string, post: string)
    requires ResolveAlias(ds, SplitQuery(q).0).None?
    requires var f := ChooseFallback(ds, fallback); f.Some? && f.value.url == pre + "%s" + post
    requires '%' !in pre && '%' !in post
    ensures MakeResponse(ds, Some((fallback, Some(q)))) == Redirect(pre + QuotePlus(q) + post)
  {
    PercentOne(pre, post, QuotePlus(q));
  }

  /** A resolved destination with argument slots receives the space-joined, stripped and
      quoted arguments. */
  lemma ArgumentsToDestination(d: Destination, args: seq<string>, pre: string, post: string)
    requires |d.args| > 0 || d.isFallback
    requires d.url == pre + "%s" + post && '%' !in pre && '%' !in post
    ensures DirectToDestination(d, Some(args)) == Redirect(pre + QuotePlus(Strip(Join(" ", args))) + post)
  {
    PercentOne(pre, post, QuotePlus(Strip(Join(" ", args))));
  }

  /** Without arguments, the first argument's default fills the slot. */
  lemma DefaultToDestination(d: Destination, pre: string, post: string)
    requires |d.args| > 0 && d.args[0].default.Some?
    requires d.url == pre + "%s" + post && '%' !in pre && '%' !in post
    ensures DirectToDestination(d, None) == Redirect(pre + QuotePlus(d.args[0].default.value) + post)
  {
    PercentOne(pre, post, QuotePlus(d.args[0].default.value));
  }

  /** A query whose alias resolves to a destination without argument rows or fallback
      flag redirects to that destination's url verbatim. */
  lemma ResolvedPlainVerbatim(ds: seq<Destination>, fallback: Option<string>, q: string, d: Destination)
    requires ResolveAlias(ds, SplitQuery(q).0) == Some(d)
    requires |d.args| == 0 && !d.isFallback
    ensures MakeResponse(ds, Some((fallback, Some(q)))) == Redirect(d.url)
  {
  }

  /** A query whose alias resolves to a destination taking an argument puts the tokens
      after the alias, space-joined, stripped and quoted, into its `%s` slot. */
  lemma ResolvedQueryToDestination(ds: seq<Destination>, fallback: Option<string>, alias: string,
                                   ts: seq<string>, d: Destination, pre: string, post: string)
    requires ArchiveRoutes.QueryShaped(alias, ts) && ts != []
    requires ResolveAlias(ds, alias) == Some(d)
    requires |d.args| > 0 || d.isFallback
    requires d.url == pre + "%s" + post && '%' !in pre && '%' !in post
    ensures MakeResponse(ds, Some((fallback, Some(Join(" ", [alias] + ts)))))
      == Redirect(pre + QuotePlus(Strip(Join(" ", ts))) + post)
  {
    SplitQueryRoundTrip(alias, ts);
    ArgumentsToDestination(d, ts, pre, post);
  }

  /** A query made of a resolved alias alone fills the slot with the first argument's
      default. */
  lemma ResolvedAliasToDefault(ds: seq<Destination>, fallback: Option<string>, alias: string,
                               d: Destination, pre: string, post: string)
    requires ArchiveRoutes.QueryShaped(alias, [])
    requires ResolveAlias(ds, alias) == Some(d)
    requires |d.args| > 0 && d.args[0].default.Some?
    requires d.url == pre + "%s" + post && '%' !in pre && '%' !in post
    ensures MakeResponse(ds, Some((fallback, Some(alias)))) == Redirect(pre + QuotePlus(d.args[0].default.value) + post)
  {
    SplitQueryRoundTrip(alias, []);
    assert [alias] + [] == [alias];
    DefaultToDestination(d, pre, post);
  }

  /** The parameters of `/new`, once parsed. */
  datatype NewRequest = NewRequest(url: string, isFallback: bool, aliases: set<string>, argument: Option<string>,
                                   argumentType: string, argumentDefault: Option<string>)

  /** `.order_by(priority.desc()).first()` over every destination: in SQLite's descending
      order NULL comes last, so this is a row with the highest priority, or a NULL one when
      no row has a priority. */
  function HighestPriority(ds: seq<Destination>): (r: Option<Destination>)
    ensures r.None? <==> ds == []
    ensures r.Some? ==> r.value in ds && forall k :: 0 <= k < |ds| ==> PriorityBefore(ds[k].priority, r.value.priority)
  {
    if ds == [] then None
    else
      var rest := HighestPriority(ds[1..]);
      assert forall k :: 1 <= k < |ds| ==> ds[1..][k - 1] == ds[k];
      if rest.None? || PriorityBefore(rest.value.priority, ds[0].priority) then Some(ds[0]) else rest
  }

  /** The new destination's priority as written: 1 in an empty table, otherwise one more
      than the top row's, which raises when that priority is NULL. */
  function PriorityAsWritten(ds: seq<Destination>, isFallback: bool): (r: Result<Option<int>>)
    ensures !isFallback ==> r == Ok(None)
    ensures r.Ok? && isFallback ==>
      r.value.Some? && forall k :: 0 <= k < |ds| && ds[k].priority.Some? ==> ds[k].priority.value < r.value.value
    ensures r.Err? ==> isFallback && ds != [] && !HasPriority(ds)
  {
    if !isFallback then Ok(None)
    else
      match HighestPriority(ds)
      case None => Ok(Some(1))
      case Some(last) =>
        if last.priority.None? then Raise(TypeError, "unsupported operand type(s) for +: 'NoneType' and 'int'")
        else Ok(Some(last.priority.value + 1))
  }

  /** Whether some row has a priority. */
  predicate HasPriority(ds: seq<Destination>) {
    exists k :: 0 <= k < |ds| && ds[k].priority.Some?
  }

  /** The defect: as soon as the table holds a row and no row has a priority (every
      destination so far is a plain one), the first fallback cannot be given a priority. */
  lemma PriorityCrash(ds: seq<Destination>)
    requires ds != [] && !HasPriority(ds)
    ensures PriorityAsWritten(ds, true).Err?
  {
    var last := HighestPriority(ds).value;
    var k :| 0 <= k < |ds| && ds[k] == last;
  }

  lemma PriorityCrashExample()
    ensures PriorityAsWritten([Destination("https://www.python.org/", false, None, {"py"}, [])], true).Err?
  {
    PriorityCrash([Destination("https://www.python.org/", false, None, {"py"}, [])]);
  }

  /** The largest priority present, if any. */
  function MaxPriority(ds: seq<Destination>): (r: Option<int>)
    ensures r.None? <==> !HasPriority(ds)
    ensures r.Some? ==> (exists k :: 0 <= k < |ds| && ds[k].priority == r) &&
                        forall k :: 0 <= k < |ds| && ds[k].priority.Some? ==> ds[k].priority.value <= r.value
  {
    if ds == [] then None
    else
      var rest := MaxPriority(ds[1..]);
      assert forall k :: 1 <= k < |ds| ==> ds[1..][k - 1] == ds[k];
      match ds[0].priority
      case None => rest
      case Some(p) => if rest.None? || rest.value <= p then Some(p) else rest
  }

  /** The priority a new fallback evidently should get: one more than every priority
      present, or 1 when there is none. */
  function NewPriority(ds: seq<Destination>, isFallback: bool): (r: Option<int>)
    ensures r.Some? <==> isFallback
    ensures r.Some? ==> forall k :: 0 <= k < |ds| && ds[k].priority.Some? ==> ds[k].priority.value < r.value
    ensures isFallback && !HasPriority(ds) ==> r == Some(1)
    ensures isFallback && HasPriority(ds) ==> r == Some(MaxPriority(ds).value + 1)
  {
    if !isFallback then None
    else
      match MaxPriority(ds)
      case None => Some(1)
      case Some(p) => Some(p + 1)
  }

  /** Where the code as written does not crash, it computes this priority. */
  lemma NewPriorityAgrees(ds: seq<Destination>, isFallback: bool)
    requires PriorityAsWritten(ds, isFallback).Ok?
    ensures PriorityAsWritten(ds, isFallback) == Ok(NewPriority(ds, isFallback))
  {
    if isFallback && ds != [] {
      var last := HighestPriority(ds).value;
      var i :| 0 <= i < |ds| && ds[i] == last;
      var j :| 0 <= j < |ds| && ds[j].priority == MaxPriority(ds);
      assert PriorityBefore(ds[j].priority, last.priority);
    }
  }

  /** The row `/new` builds; an empty `argument` means no argument row. */
  function BuildDestination(req: NewRequest, priority: Option<int>): Destination
    requires req.argument.Some?
  {
    Destination(req.url, req.isFallback, priority, req.aliases,
                if req.argument.value == "" then []
                else [Argument(req.argument.value, req.argumentType, req.argumentDefault)])
  }

  /** Whether the commit succeeds: the url is unique and an argument row's type is one the
      check constraint allows. */
  predicate Commits(ds: seq<Destination>, d: Destination) {
    && (forall k :: 0 <= k < |ds| ==> ds[k].url != d.url)
    && (forall k :: 0 <= k < |d.args| ==> d.args[k].argType in {"string", "nargs"})
  }

  /** `NewDestinationRoute._make_response` as written, on the parsed request (`None` when
      parsing fails): the response and the committed table. */
  function NewDestinationAsWritten(ds: seq<Destination>, request: Option<NewRequest>): (r: (Outcome, seq<Destination>))
    ensures r.0 in {Success, PreconditionFailed, ServerError}
    ensures r.0 != Success ==> r.1 == ds
    ensures r != NewDestination(ds, request) ==>
      && r == (ServerError, ds) && request.Some? && request.value.isFallback
      && ds != [] && !HasPriority(ds)
  {
    assert request.Some? && PriorityAsWritten(ds, request.value.isFallback).Ok? ==>
      PriorityAsWritten(ds, request.value.isFallback) == Ok(NewPriority(ds, request.value.isFallback)) by {
      if request.Some? && PriorityAsWritten(ds, request.value.isFallback).Ok? {
        NewPriorityAgrees(ds, request.value.isFallback);
      }
    }
    if request.None? || request.value.argument.None? then (PreconditionFailed, ds)
    else
      match PriorityAsWritten(ds, request.value.isFallback)
      case Err(_) => (ServerError, ds)
      case Ok(priority) =>
        var d := BuildDestination(request.value, priority);
        if Commits(ds, d) then (Success, ds + [d]) else (ServerError, ds)
  }

  /** `/new` with a priority above every existing one. */
  function NewDestination(ds: seq<Destination>, request: Option<NewRequest>): (r: (Outcome, seq<Destination>))
    ensures r.0 in {Success, PreconditionFailed, ServerError}
    ensures r.0 != Success ==> r.1 == ds
    ensures request.None? || request.value.argument.None? ==> r.0 == PreconditionFailed
    ensures r.0 == Success ==> |r.1| == |ds| + 1 && r.1[..|ds|] == ds
    ensures r.0 == Success ==> var d := r.1[|ds|];
      && d.url == request.value.url && d.aliases == request.value.aliases && d.isFallback == request.value.isFallback
      && (d.isFallback ==> d.priority.Some? && forall k :: 0 <= k < |ds| && ds[k].priority.Some? ==> ds[k].priority.value < d.priority.value)
    ensures request.Some? && request.value.argument.Some? ==>
      var d := BuildDestination(request.value, NewPriority(ds, request.value.isFallback));
      && (r.0 == Success <==> Commits(ds, d))
      && (r.0 == Success ==> r.1 == ds + [d])
  {
    if request.None? || request.value.argument.None? then (PreconditionFailed, ds)
    else
      var d := BuildDestination(request.value, NewPriority(ds, request.value.isFallback));
      if Commits(ds, d) then
        assert (ds + [d])[..|ds|] == ds;
        (Success, ds + [d])
      else (ServerError, ds)
  }

  /** Where the code as written answers at all without crashing, the corrected route
      answers the same. */
  lemma NewDestinationAgrees(ds: seq<Destination>, request: Option<NewRequest>)
    requires request.Some? ==> PriorityAsWritten(ds, request.value.isFallback).Ok?
    ensures NewDestinationAsWritten(ds, request) == NewDestination(ds, request)
  {
    if request.Some? {
      NewPriorityAgrees(ds, request.value.isFallback);
    }
  }

  /** The table's invariant: urls are unique and no two rows share a priority. */
  predicate ValidTable(ds: seq<Destination>) {
    && (forall i, j :: 0 <= i < j < |ds| ==> ds[i].url != ds[j].url)
    && (forall i, j :: 0 <= i < j < |ds| && ds[i].priority.Some? ==> ds[i].priority != ds[j].priority)
  }

  /** `/new` keeps the table valid. */
  lemma NewDestinationKeepsValid(ds: seq<Destination>, request: Option<NewRequest>)
    requires ValidTable(ds)
    ensures ValidTable(NewDestination(ds, request).1)
  {
    var r := NewDestination(ds, request);
    if r.0 == Success {
      var d := r.1[|ds|];
      assert r.1 == ds + [d];
      assert Commits(ds, d);
    }
  }
}
