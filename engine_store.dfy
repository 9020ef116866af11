/** The Flask engine's destination store: the `destination` and `alias` tables, the insert
    routine that validates a destination, moves the default-fallback flag and adds the
    aliases in one transaction, and the two lookups. The archived copy of the store is the
    same file. */
module EngineStore {
  import opened Wrappers
  import opened UrlParse
  import opened PyFormat
  import opened Quoting
  import ModelsUtils

  /** A row of the `destination` table. */
  datatype Destination = Destination(
    id: nat,
    url: string,
    numArgs: nat,
    isFallback: bool,
    isDefaultFallback: bool,
    description: string)

  /** A row of the `alias` table: a (quoted) shortcut name pointing at a destination. */
  datatype Alias = Alias(destId: nat, name: string)

  /** `_validate_netloc_url`: like the newer validator but without the scheme restriction. */
  function ValidateNetlocUrl(url: string): (r: Result<string>)
    ensures r.Err? ==> r.error.kind == ValueError
    ensures UrlSplit(url).Err? ==> r == Raise(ValueError, "invalid URL (" + UrlSplit(url).error.message + ")")
    ensures UrlSplit(url).Ok? && UrlSplit(url).value.netloc == "" ==> r == Raise(ValueError, "URL must point to website")
    ensures UrlSplit(url).Ok? && UrlSplit(url).value.netloc != "" && UrlSplit(url).value.scheme != "" ==> r == Ok(url)
    ensures UrlSplit(url).Ok? && UrlSplit(url).value.netloc != "" && UrlSplit(url).value.scheme == "" ==>
      r == Ok(UrlUnsplit(UrlSplit(url).value.(scheme := "http")))
    ensures r.Ok? ==> UrlSplit(r.value).Ok? && UrlSplit(r.value).value.scheme != ""
                      && UrlSplit(r.value).value.netloc == UrlSplit(url).value.netloc != ""
  {
    match UrlSplit(url)
    case Err(e) => Raise(ValueError, "invalid URL (" + e.message + ")")
    case Ok(parts) =>
      if parts.netloc == "" then Raise(ValueError, "URL must point to website")
      else if parts.scheme == "" then
        SplitUnsplitHttp(parts.netloc, parts.path, parts.query, parts.fragment);
        Ok(UrlUnsplit(parts.(scheme := "http")))
      else Ok(url)
  }

  /** A scheme-less url with a network location is rebuilt under `http` and splits back
      into the same components. */
  lemma DefaultScheme(url: string)
    requires UrlSplit(url).Ok? && UrlSplit(url).value.scheme == "" && UrlSplit(url).value.netloc != ""
    ensures var p := UrlSplit(url).value;
      var path := if p.path != "" && p.path[0] != '/' then "/" + p.path else p.path;
      ValidateNetlocUrl(url).Ok?
      && UrlSplit(ValidateNetlocUrl(url).value) == Ok(SplitResult("http", p.netloc, path, p.query, p.fragment))
  {
    var p := UrlSplit(url).value;
    SplitUnsplitHttp(p.netloc, p.path, p.query, p.fragment);
    assert p.(scheme := "http") == SplitResult("http", p.netloc, p.path, p.query, p.fragment);
  }

  /** Validating a validated url returns it unchanged. */
  lemma ValidateIdempotent(url: string)
    requires ValidateNetlocUrl(url).Ok?
    ensures ValidateNetlocUrl(ValidateNetlocUrl(url).value) == ValidateNetlocUrl(url)
  {
  }

  /** `_gen_num_args_from_url`: zero for a single field-less chunk, otherwise the number of
      chunks; any named field raises. */
  function NumArgs(url: string): (r: Result<nat>)
    ensures r.Err? ==> r.error.kind == ValueError
    ensures r.Ok? ==> Parse(url).Ok? && FirstNamedField(Parse(url).value).None?
    ensures BraceFree(url) ==> r == Ok(0)
  {
    assert url != "" && BraceFree(url) ==> Parse(url) == Ok([Chunk(url, None)]) by {
      if url != "" && BraceFree(url) {
        ParseLiteral(url);
      }
    }
    assert Parse("") == Ok([]);
    match Parse(url)
    case Err(e) => Err(e)
    case Ok(chunks) =>
      if |chunks| == 1 && chunks[0].field.None? then Ok(0)
      else
        match FirstNamedField(chunks)
        case Some(name) => Raise(ValueError, "must not have keyword arguments (\"" + name + "\")")
        case None => Ok(|chunks|)
  }

  /** For a template this count is one more than the number of `{}` when text follows the
      last `{}`: `https://example.com/{}/history` counts 2 here and 1 in the newer count. */
  lemma NumArgsTemplate(lits: seq<string>)
    requires |lits| >= 2 && forall k :: 0 <= k < |lits| ==> BraceFree(lits[k])
    ensures NumArgs(Template(lits)) == Ok(|lits| - 1 + (if lits[|lits| - 1] != "" then 1 else 0))
    ensures ModelsUtils.NumArgs(Template(lits)) == Ok(|lits| - 1)
  {
    ParseTemplate(lits);
    TemplateChunksCount(lits);
    ModelsUtils.NumArgsTemplate(lits);
    var cs := TemplateChunks(lits);
    assert cs[0] == Chunk(lits[0], Some(Field("", "", None)));
  }

  /** The validation phase of `add_destination_with_aliases`, which runs before anything is
      changed: the validated url, its argument count and the final fallback flag. */
  function Prepare(url: string, aliasNames: seq<string>, isFallback: bool, isDefaultFallback: bool)
    : (r: Result<(string, nat, bool)>)
    ensures aliasNames == [] ==> r == Raise(ValueError, "must provide at least one alias")
    ensures r.Err? ==> r.error.kind == ValueError
    ensures r.Ok? ==> ValidateNetlocUrl(url) == Ok(r.value.0) && NumArgs(r.value.0) == Ok(r.value.1)
    ensures r.Ok? ==> r.value.2 == (isFallback || isDefaultFallback)
    ensures r.Ok? && isFallback ==> r.value.1 == 1
    ensures aliasNames != [] && ValidateNetlocUrl(url).Ok? && NumArgs(ValidateNetlocUrl(url).value).Ok? ==>
      (r.Ok? <==> !isFallback || NumArgs(ValidateNetlocUrl(url).value).value == 1)
  {
    if aliasNames == [] then Raise(ValueError, "must provide at least one alias")
    else
      var validUrl :- ValidateNetlocUrl(url);
      var numArgs :- NumArgs(validUrl);
      if isFallback then
        if numArgs != 1 then Raise(ValueError, "fallback destinations must have one argument")
        else Ok((validUrl, numArgs, true))
      else Ok((validUrl, numArgs, isDefaultFallback))
  }

  predicate UrlsUnique(ds: seq<Destination>) {
    forall i, j :: 0 <= i < j < |ds| ==> ds[i].url != ds[j].url
  }

  predicate IdsUnique(ds: seq<Destination>) {
    forall i, j :: 0 <= i < j < |ds| ==> ds[i].id != ds[j].id
  }

  predicate AliasNamesUnique(als: seq<Alias>) {
    forall i, j :: 0 <= i < j < |als| ==> als[i].name != als[j].name
  }

  predicate AtMostOneDefault(ds: seq<Destination>) {
    forall i, j :: 0 <= i < |ds| && 0 <= j < |ds| && ds[i].isDefaultFallback && ds[j].isDefaultFallback ==> i == j
  }

  /** The unique constraints the commit enforces. */
  predicate Committable(ds: seq<Destination>, als: seq<Alias>) {
    UrlsUnique(ds) && AliasNamesUnique(als)
  }

  /** Every row with its default-fallback flag cleared. */
  function ClearDefaults(ds: seq<Destination>): (r: seq<Destination>)
    ensures |r| == |ds|
    ensures forall k :: 0 <= k < |ds| ==> r[k] == ds[k].(isDefaultFallback := false)
  {
    seq(|ds|, k requires 0 <= k < |ds| => ds[k].(isDefaultFallback := false))
  }

  /** One alias row per name, in order and without deduplication, each name quoted. */
  function AliasRows(destId: nat, names: seq<string>): (r: seq<Alias>)
    ensures |r| == |names|
    ensures forall k :: 0 <= k < |names| ==> r[k] == Alias(destId, QuotePlus(names[k]))
  {
    seq(|names|, k requires 0 <= k < |names| => Alias(destId, QuotePlus(names[k])))
  }

  /** The destination table after a successful insert of `d`. */
  function AddedDestinations(ds: seq<Destination>, d: Destination): seq<Destination> {
    (if d.isDefaultFallback then ClearDefaults(ds) else ds) + [d]
  }

  /** Inserting keeps at most one default fallback, and a new default is the only one. */
  lemma AddKeepsOneDefault(ds: seq<Destination>, d: Destination)
    requires AtMostOneDefault(ds)
    ensures AtMostOneDefault(AddedDestinations(ds, d))
    ensures d.isDefaultFallback ==> forall k :: 0 <= k < |ds| ==> !AddedDestinations(ds, d)[k].isDefaultFallback
  {
  }

  /** Inserting changes no destination's url, id or arguments, and no flag other than the
      default-fallback flag. */
  lemma AddPreservesRows(ds: seq<Destination>, d: Destination)
    ensures var r := AddedDestinations(ds, d);
      |r| == |ds| + 1 && r[|ds|] == d
      && forall k :: 0 <= k < |ds| ==> r[k].(isDefaultFallback := ds[k].isDefaultFallback) == ds[k]
  {
  }

  /** A repeated alias name always breaks the unique constraint, so the insert fails. */
  lemma DuplicateAliasFails(als: seq<Alias>, destId: nat, names: seq<string>, i: nat, j: nat)
    requires i < j < |names| && names[i] == names[j]
    ensures !AliasNamesUnique(als + AliasRows(destId, names))
  {
    var rows := als + AliasRows(destId, names);
    assert rows[|als| + i].name == rows[|als| + j].name;
  }

  /** An alias name already in the table makes the insert fail. */
  lemma ExistingAliasFails(als: seq<Alias>, destId: nat, names: seq<string>, i: nat, k: nat)
    requires i < |names| && k < |als| && als[k].name == QuotePlus(names[i])
    ensures !AliasNamesUnique(als + AliasRows(destId, names))
  {
    var rows := als + AliasRows(destId, names);
    assert rows[k].name == rows[|als| + i].name;
  }

  /** A url already in the table makes the insert fail. */
  lemma ExistingUrlFails(ds: seq<Destination>, d: Destination, k: nat)
    requires k < |ds| && ds[k].url == d.url
    ensures !UrlsUnique(AddedDestinations(ds, d))
  {
    var r := AddedDestinations(ds, d);
    assert r[k].url == r[|ds|].url;
  }

  /** `gen_default_fallback`: a default-flagged destination, or ValueError when none exists. */
  function GenDefaultFallback(ds: seq<Destination>): (r: Result<Destination>)
    ensures r.Ok? ==> r.value in ds && r.value.isDefaultFallback
    ensures r.Err? <==> forall k :: 0 <= k < |ds| ==> !ds[k].isDefaultFallback
    ensures r.Err? ==> r.error == Error(ValueError, "must have default fallback destination")
  {
    if ds == [] then Raise(ValueError, "must have default fallback destination")
    else if ds[0].isDefaultFallback then Ok(ds[0])
    else
      var r := GenDefaultFallback(ds[1..]);
      assert forall k :: 1 <= k < |ds| ==> ds[k] == ds[1..][k - 1];
      r
  }

  /** The destination with the given id. */
  function FindById(ds: seq<Destination>, id: nat): (r: Option<Destination>)
    ensures r.Some? ==> r.value in ds && r.value.id == id
    ensures r.None? <==> forall k :: 0 <= k < |ds| ==> ds[k].id != id
  {
    if ds == [] then None
    else if ds[0].id == id then Some(ds[0])
    else
      var r := FindById(ds[1..], id);
      assert forall k :: 1 <= k < |ds| ==> ds[k] == ds[1..][k - 1];
      r
  }

  /** The first alias row with the given name. */
  function FindAlias(als: seq<Alias>, name: string): (r: Option<nat>)
    ensures r.Some? ==> r.value < |als| && als[r.value].name == name
    ensures r.Some? ==> forall k :: 0 <= k < r.value ==> als[k].name != name
    ensures r.None? <==> forall k :: 0 <= k < |als| ==> als[k].name != name
  {
    if als == [] then None
    else if als[0].name == name then Some(0)
    else
      match FindAlias(als[1..], name)
      case None => None
      case Some(i) => Some(i + 1)
  }

  /** Some alias row named `name` points at a destination of the table: the join of the
      two tables has a row for that name. */
  predicate JoinedRow(ds: seq<Destination>, als: seq<Alias>, name: string) {
    exists k, j :: 0 <= k < |als| && 0 <= j < |ds| && als[k].name == name && ds[j].id == als[k].destId
  }

  /** `gen_destination_for_alias`: the destination of the alias row named `quote_plus(alias)`,
      or `None` when no row has that name. */
  function GenDestinationForAlias(ds: seq<Destination>, als: seq<Alias>, alias: string): (r: Option<Destination>)
    ensures r.Some? ==> r.value in ds && exists k :: 0 <= k < |als| && als[k].name == QuotePlus(alias) && als[k].destId == r.value.id
    ensures (forall k :: 0 <= k < |als| ==> als[k].name != QuotePlus(alias)) ==> r.None?
    ensures AliasNamesUnique(als) && JoinedRow(ds, als, QuotePlus(alias)) ==> r.Some?
  {
    match FindAlias(als, QuotePlus(alias))
    case None => None
    case Some(i) => FindById(ds, als[i].destId)
  }

  /** After an insert, each of its alias names resolves to the new destination. */
  lemma AddedAliasResolves(ds: seq<Destination>, als: seq<Alias>, d: Destination, names: seq<string>, i: nat)
    requires i < |names|
    requires forall k :: 0 <= k < |ds| ==> ds[k].id != d.id
    requires AliasNamesUnique(als + AliasRows(d.id, names))
    ensures GenDestinationForAlias(AddedDestinations(ds, d), als + AliasRows(d.id, names), names[i]) == Some(d)
  {
    var rows := als + AliasRows(d.id, names);
    var q := QuotePlus(names[i]);
    assert rows[|als| + i].name == q;
    var f := FindAlias(rows, q);
    assert f.Some?;
    assert forall k :: 0 <= k < |als| ==> rows[k].name != q;
    assert rows[f.value].destId == d.id;
    var nds := AddedDestinations(ds, d);
    assert nds[|ds|] == d;
    assert FindById(nds, d.id) == Some(d) by {
      assert forall k :: 0 <= k < |ds| ==> nds[k].id == ds[k].id;
    }
  }

  /** After inserting a default fallback, the default lookup finds it. */
  lemma AddedDefaultResolves(ds: seq<Destination>, d: Destination)
    requires d.isDefaultFallback
    ensures GenDefaultFallback(AddedDestinations(ds, d)) == Ok(d)
  {
    var nds := AddedDestinations(ds, d);
    assert nds[|ds|] == d && nds[|ds|].isDefaultFallback;
    var r := GenDefaultFallback(nds);
    assert r.Ok?;
    assert forall k :: 0 <= k < |ds| ==> !nds[k].isDefaultFallback;
  }

  /** The invariant of the committed tables: the unique constraints hold, ids are distinct
      and below the next id, every alias points at a destination, and at most one
      destination is the default fallback. */
  predicate ValidTables(ds: seq<Destination>, als: seq<Alias>, nextId: nat) {
    && UrlsUnique(ds)
    && IdsUnique(ds)
    && AliasNamesUnique(als)
    && AtMostOneDefault(ds)
    && (forall k :: 0 <= k < |ds| ==> ds[k].id < nextId)
    && (forall k :: 0 <= k < |als| ==> exists j :: 0 <= j < |ds| && ds[j].id == als[k].destId)
  }

  /** In valid tables, an alias row named `quote_plus(alias)` always leads to its
      destination. */
  lemma PresentAliasFound(ds: seq<Destination>, als: seq<Alias>, nextId: nat, alias: string)
    requires ValidTables(ds, als, nextId)
    requires exists k :: 0 <= k < |als| && als[k].name == QuotePlus(alias)
    ensures GenDestinationForAlias(ds, als, alias).Some?
  {
    var k :| 0 <= k < |als| && als[k].name == QuotePlus(alias);
    var j :| 0 <= j < |ds| && ds[j].id == als[k].destId;
    assert JoinedRow(ds, als, QuotePlus(alias));
  }

  /** A committed insert keeps the invariant. */
  lemma AddKeepsValid(ds: seq<Destination>, als: seq<Alias>, nextId: nat, d: Destination, names: seq<string>,
                      nds: seq<Destination>, nas: seq<Alias>)
    requires ValidTables(ds, als, nextId) && d.id == nextId
    requires nds == AddedDestinations(ds, d) && nas == als + AliasRows(d.id, names)
    requires Committable(nds, nas)
    ensures ValidTables(nds, nas, nextId + 1)
  {
    AddKeepsOneDefault(ds, d);
    assert forall k :: 0 <= k < |ds| ==> nds[k].id == ds[k].id;
    assert nds[|ds|] == d;
    forall k | 0 <= k < |nas| ensures exists j :: 0 <= j < |nds| && nds[j].id == nas[k].destId {
      if k < |als| {
        var j :| 0 <= j < |ds| && ds[j].id == als[k].destId;
        assert nds[j].id == nas[k].destId;
      } else {
        assert nds[|ds|].id == nas[k].destId;
      }
    }
  }

  /** The clearing loop: every pending row loses its default flag. */
  method ClearDefaultFlags(ds: seq<Destination>) returns (pending: seq<Destination>)
    ensures pending == ClearDefaults(ds)
  {
    pending := ds;
    var i := 0;
    while i < |pending|
      invariant 0 <= i <= |pending| == |ds|
      invariant forall k :: 0 <= k < i ==> pending[k] == ds[k].(isDefaultFallback := false)
      invariant forall k :: i <= k < |pending| ==> pending[k] == ds[k]
    {
      if pending[i].isDefaultFallback {
        pending := pending[i := pending[i].(isDefaultFallback := false)];
      }
      i := i + 1;
    }
  }

  /** The alias loop: one row per name. */
  method MakeAliasRows(destId: nat, names: seq<string>) returns (rows: seq<Alias>)
    ensures rows == AliasRows(destId, names)
  {
    rows := [];
    var j := 0;
    while j < |names|
      invariant 0 <= j <= |names|
      invariant rows == AliasRows(destId, names[..j])
    {
      rows := rows + [Alias(destId, QuotePlus(names[j]))];
      j := j + 1;
    }
    assert names[..j] == names;
  }

  /** The destination row an insert adds, from the validated url, count and fallback flag. */
  function NewRow(id: nat, p: (string, nat, bool), isDefaultFallback: bool, description: string): Destination {
    Destination(id, p.0, p.1, p.2, isDefaultFallback, description)
  }

  /** The whole transaction of `add_destination_with_aliases` on the committed tables:
      the new tables, or the error that leaves them as they were. */
  function AddDestination(ds: seq<Destination>, als: seq<Alias>, nextId: nat, url: string, description: string,
                          aliasNames: seq<string>, isFallback: bool, isDefaultFallback: bool)
    : (r: Result<(seq<Destination>, seq<Alias>)>)
    ensures Prepare(url, aliasNames, isFallback, isDefaultFallback).Err? ==>
      r == Err(Prepare(url, aliasNames, isFallback, isDefaultFallback).error)
    ensures r.Err? ==> r.error.kind == ValueError || r.error == Error(IntegrityError, "UNIQUE constraint failed")
    ensures r.Ok? ==> Prepare(url, aliasNames, isFallback, isDefaultFallback).Ok? && Committable(r.value.0, r.value.1)
    ensures r.Ok? ==> |r.value.0| == |ds| + 1 && r.value.0[|ds|].id == nextId
                      && r.value.1 == als + AliasRows(nextId, aliasNames)
    ensures var p := Prepare(url, aliasNames, isFallback, isDefaultFallback);
      r.Ok? ==> r.value.0 == AddedDestinations(ds, NewRow(nextId, p.value, isDefaultFallback, description))
    ensures var p := Prepare(url, aliasNames, isFallback, isDefaultFallback);
      p.Ok? ==>
        var nds := AddedDestinations(ds, NewRow(nextId, p.value, isDefaultFallback, description));
        Committable(nds, als + AliasRows(nextId, aliasNames)) ==> r.Ok?
  {
    var p :- Prepare(url, aliasNames, isFallback, isDefaultFallback);
    var d := NewRow(nextId, p, isDefaultFallback, description);
    var nds := AddedDestinations(ds, d);
    var nas := als + AliasRows(nextId, aliasNames);
    if !Committable(nds, nas) then Raise(IntegrityError, "UNIQUE constraint failed")
    else Ok((nds, nas))
  }

  /** The session's work for `add_destination_with_aliases`, on pending copies of the
      committed tables: validate, clear existing default flags, add the destination and one
      alias row per name, then try to commit. */
  method Transaction(ds: seq<Destination>, als: seq<Alias>, nextId: nat, url: string, description: string,
                     aliasNames: seq<string>, isFallback: bool, isDefaultFallback: bool)
    returns (t: Result<(seq<Destination>, seq<Alias>)>)
    ensures t == AddDestination(ds, als, nextId, url, description, aliasNames, isFallback, isDefaultFallback)
  {
    var prepared := Prepare(url, aliasNames, isFallback, isDefaultFallback);
    if prepared.Err? {
      return Err(prepared.error);
    }
    var (validUrl, numArgs, fallback) := prepared.value;
    var pending := ds;
    if isDefaultFallback {
      pending := ClearDefaultFlags(ds);
    }
    var destination := Destination(nextId, validUrl, numArgs, fallback, isDefaultFallback, description);
    pending := pending + [destination];
    var newAliases := MakeAliasRows(destination.id, aliasNames);
    var newRows := als + newAliases;
    assert pending == AddedDestinations(ds, destination);
    AddDestinationIs(ds, als, nextId, url, description, aliasNames, isFallback, isDefaultFallback, pending, newRows);
    if !Committable(pending, newRows) {
      return Raise(IntegrityError, "UNIQUE constraint failed");
    }
    return Ok((pending, newRows));
  }

  /** The tables the transaction has pending once validation has passed decide its outcome. */
  lemma AddDestinationIs(ds: seq<Destination>, als: seq<Alias>, nextId: nat, url: string, description: string,
                         aliasNames: seq<string>, isFallback: bool, isDefaultFallback: bool,
                         pending: seq<Destination>, newRows: seq<Alias>)
    requires Prepare(url, aliasNames, isFallback, isDefaultFallback).Ok?
    requires var p := Prepare(url, aliasNames, isFallback, isDefaultFallback).value;
      pending == AddedDestinations(ds, Destination(nextId, p.0, p.1, p.2, isDefaultFallback, description))
    requires newRows == als + AliasRows(nextId, aliasNames)
    ensures var t := AddDestination(ds, als, nextId, url, description, aliasNames, isFallback, isDefaultFallback);
      t == if Committable(pending, newRows) then Ok((pending, newRows)) else Raise(IntegrityError, "UNIQUE constraint failed")
  {
  }

  /** A committed insert keeps the table invariant. */
  lemma AddDestinationKeepsValid(ds: seq<Destination>, als: seq<Alias>, nextId: nat, url: string, description: string,
                                 aliasNames: seq<string>, isFallback: bool, isDefaultFallback: bool)
    requires ValidTables(ds, als, nextId)
    ensures var t := AddDestination(ds, als, nextId, url, description, aliasNames, isFallback, isDefaultFallback);
      t.Ok? ==> ValidTables(t.value.0, t.value.1, nextId + 1)
  {
    if AddDestination(ds, als, nextId, url, description, aliasNames, isFallback, isDefaultFallback).Ok? {
      var p := Prepare(url, aliasNames, isFallback, isDefaultFallback).value;
      var d := Destination(nextId, p.0, p.1, p.2, isDefaultFallback, description);
      AddKeepsValid(ds, als, nextId, d, aliasNames, AddedDestinations(ds, d), als + AliasRows(nextId, aliasNames));
    }
  }

  /** The committed state of the two tables. */
  class DestinationStore {
    var destinations: seq<Destination>
    var aliases: seq<Alias>
    var nextId: nat

    ghost predicate Valid()
      reads this
    {
      ValidTables(destinations, aliases, nextId)
    }

    constructor()
      ensures Valid() && destinations == [] && aliases == [] && nextId == 1
    {
      destinations := [];
      aliases := [];
      nextId := 1;
    }

    /** `add_destination_with_aliases`: validate, then clear existing default flags, add the
        destination and one alias row per name, and commit; a failed commit rolls
        everything back. */
    method AddDestinationWithAliases(url: string, description: string, aliasNames: seq<string>,
                                     isFallback: bool, isDefaultFallback: bool)
      returns (r: Result<()>)
      requires Valid()
      modifies this
      ensures Valid()
      ensures var t := AddDestination(old(destinations), old(aliases), old(nextId), url, description,
                                      aliasNames, isFallback, isDefaultFallback);
        t.Err? ==> r == Err(t.error) && destinations == old(destinations) && aliases == old(aliases) && nextId == old(nextId)
      ensures var t := AddDestination(old(destinations), old(aliases), old(nextId), url, description,
                                      aliasNames, isFallback, isDefaultFallback);
        t.Ok? ==> r == Ok(()) && destinations == t.value.0 && aliases == t.value.1 && nextId == old(nextId) + 1
    {
      var t := Transaction(destinations, aliases, nextId, url, description, aliasNames, isFallback, isDefaultFallback);
      if t.Err? {
        return Err(t.error);
      }
      AddDestinationKeepsValid(destinations, aliases, nextId, url, description, aliasNames, isFallback, isDefaultFallback);
      destinations := t.value.0;
      aliases := t.value.1;
      nextId := nextId + 1;
      return Ok(());
    }
  }
}
