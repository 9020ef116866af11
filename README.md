# hare: a Dafny model of the URL-shortcut engine

hare is a personal URL-shortcut service. A user types a query such as `yt cute cats`.
The engine looks up the alias (`yt`), finds the destination it points at (a url template
such as `https://www.youtube.com/results?search_query={}`) and redirects to the template
filled with the remaining words. When nothing matches, a fallback destination is used
instead, for example a web search.

The repository holds several generations of that engine. This project models each one in
its own module, together with the helpers around them:

- `ModelsUtils`: url validation and template arity for the Django package.
- `EngineStore`: the Flask engine's destination store. Its two copies are byte-identical,
  so one module models both. The store is a class over the `destination` and `alias`
  tables. An insert validates, clears existing default flags, adds the rows and commits,
  and a failed commit rolls everything back.
- `ArchiveRoutes`: the archived Flask routes. Resolution falls through from the alias to
  the fallback alias to the default fallback.
- `EngineRoutes`: the newer Flask routes. There is no fall-through, and the listing groups
  aliases per destination.
- `LegacyRoutes`: the 2018 engine. Fallbacks are chosen by priority and filled in with `%`.
- `RequestParsing`: the request-to-`argparse` adapter.
- `UiViews` and `UiForms`: the Django listing view, the creation form handler and the
  delimited-list form field.
- `LicenseHeader`: the license-header management command.
- `SettingsUtils`: the environment-driven settings.
- `CommonDatabase`: record field population.

Python library routines the core relies on are specified, simplified, in their own
modules:

- `PyStr`: `str.strip`, `split`, `join`, `find`, `splitlines`, `lower`.
- `UrlParse`: `urlsplit` and `urlunsplit`, following section 2.4 of RFC 1808.
- `PyFormat`: `string.Formatter.parse`, `str.format` with positional string arguments,
  and `%s` formatting.
- `Quoting`: `quote_plus`, percent-encoding per section 2.1 of RFC 3986. It keeps the
  unreserved characters of section 2.3 and writes a space as `+`.
- `Sorting`: Python's stable `sorted`.
- `Wrappers`: `Option`, and `Result` for raised exceptions.

Responses are values of `Outcomes.Outcome`.

The database, the request and the file system are parameters:

- committed table contents are sequences;
- parsed request parameters are `Option`s;
- file contents are strings, with `None` for a path that is not a file;
- the environment is a `map<string, string>`.

## Model

| member | source | states |
|---|---|---|
| ModelsUtils.ValidateNetlocUrl | hare/core/models_utils.py:46-67 | a split failure becomes ValueError `Invalid URL (...)`; an empty netloc is rejected; a non-http(s) scheme is rejected; an http(s) url with a netloc is returned unchanged; any accepted result splits with an http(s) scheme and the input's netloc |
| ModelsUtils.DefaultScheme | hare/core/models_utils.py:54-64 | a scheme-less url with a netloc is accepted, and its result splits back into scheme `http` with the same netloc, query and fragment (the path gains a leading `/` where `urlunsplit` adds one) |
| ModelsUtils.SchemeLessNetloc | hare/core/models_utils.py:54-64 | `//`, a network location and an absolute path, with no scheme, become the same url under `http:` |
| ModelsUtils.SchemeLessExample | hare/core/models_utils.py:54-64 | `//www.python.org/downloads` becomes `http://www.python.org/downloads` |
| ModelsUtils.BareDomainExample | hare/core/models_utils.py:51-52 | the bare domain `www.python.org` has no network location and is rejected |
| ModelsUtils.IpPortExample | hare/core/models_utils.py:51-52 | `127.0.0.1:8000`, an address and port without `//`, is rejected the same way |
| ModelsUtils.ValidateIdempotent | hare/core/models_utils.py:54-67 | validating an accepted result accepts it again and returns it unchanged |
| ModelsUtils.GenNumArgsFromUrl | hare/core/models_utils.py:79-90 | the loop computes `NumArgs`: the number of fields with an empty name, or ValueError at the first named field |
| ModelsUtils.NumArgsTemplate | hare/core/models_utils.py:79-90 | a template of brace-free literals joined by `{}` counts one argument per `{}` (zero for a plain url) |
| ModelsUtils.NumArgsRejectsNamed | hare/core/models_utils.py:85-87 | any named field, such as `{search}` or `{0}`, gives ValueError, even next to positional fields |
| EngineStore.ValidateNetlocUrl | hare-engine/hare_engine/database.py:141-152 | split failures and empty netlocs are ValueError; any scheme is accepted and the url returned unchanged; a url without a scheme becomes `urlunsplit` of its components under `http`; the result keeps the netloc |
| EngineStore.DefaultScheme | hare-engine/hare_engine/database.py:149-151 | a scheme-less url with a netloc is accepted, and its result splits back into scheme `http` with the same netloc, query and fragment (the path gains a leading `/` where `urlunsplit` adds one) |
| EngineStore.ValidateIdempotent | hare-engine/hare_engine/database.py:141-152 | validating an accepted url again returns it unchanged |
| EngineStore.NumArgs | hare-engine/hare_engine/database.py:167-178 | an accepted count comes from a parse with no named field; every error is ValueError; a url without braces takes no arguments |
| EngineStore.NumArgsTemplate | hare-engine/hare_engine/database.py:171-174 | for a template with `{}` the count is the number of parse chunks: one more than the number of `{}` when text follows the last one, unlike the newer count |
| EngineStore.Prepare | hare-engine/hare_engine/database.py:200-217 | no aliases is ValueError first; the url is validated, then counted; a fallback must take exactly one argument; a default fallback becomes a fallback without that check |
| EngineStore.ClearDefaults | hare-engine/hare_engine/database.py:229-233 | every row keeps everything but its default flag, which is cleared |
| EngineStore.AliasRows | hare-engine/hare_engine/database.py:242-243 | one alias row per name, in order, without deduplication, each named `quote_plus(name)` |
| EngineStore.AddKeepsOneDefault | hare-engine/hare_engine/database.py:229-240 | starting from at most one default fallback, an insert leaves at most one, and a new default is the only one |
| EngineStore.AddPreservesRows | hare-engine/hare_engine/database.py:229-241 | an insert appends the new row and changes nothing in existing rows except the default flag |
| EngineStore.DuplicateAliasFails | hare-engine/hare_engine/database.py:119 | a name repeated in the alias list breaks the alias unique constraint |
| EngineStore.ExistingAliasFails | hare-engine/hare_engine/database.py:119 | a name whose quoted form is already stored breaks the alias unique constraint |
| EngineStore.ExistingUrlFails | hare-engine/hare_engine/database.py:82 | a url already stored breaks the url unique constraint |
| EngineStore.GenDefaultFallback | hare-engine/hare_engine/database.py:264-267 | a default-flagged destination from the table, or ValueError exactly when there is none |
| EngineStore.GenDestinationForAlias | hare-engine/hare_engine/database.py:282-286 | a found destination is in the table and has an alias row named `quote_plus(alias)`; with no such row the result is `None`; with unique alias names, a row of that name joined to a destination is always found |
| EngineStore.AddedAliasResolves | hare-engine/hare_engine/database.py:236-250 | after a committed insert each of its alias names resolves to the new destination |
| EngineStore.AddedDefaultResolves | hare-engine/hare_engine/database.py:229-240 | after inserting a default fallback the default lookup returns it |
| EngineStore.AddKeepsValid | hare-engine/hare_engine/database.py:229-250 | a committed insert keeps the table invariant: unique urls, unique alias names, distinct ids, at most one default, every alias pointing at a destination |
| EngineStore.PresentAliasFound | hare-engine/hare_engine/database.py:282-286 | in valid tables, whenever an alias row is named `quote_plus(alias)`, the lookup finds a destination |
| EngineStore.ClearDefaultFlags | hare-engine/hare_engine/database.py:229-233 | the clearing loop computes `ClearDefaults` |
| EngineStore.MakeAliasRows | hare-engine/hare_engine/database.py:242-243 | the alias loop computes `AliasRows` |
| EngineStore.AddDestination | hare-engine/hare_engine/database.py:200-250 | a validation error is returned before any change; a commit fails only with IntegrityError on a unique constraint; a success gives the destinations with the defaults cleared and the new row appended, and the alias table with the quoted rows appended; the insert succeeds whenever those new tables meet the unique constraints |
| EngineStore.Transaction | hare-engine/hare_engine/database.py:200-250 | the session's steps on pending copies of the tables (validate, clear the default flags, append the row and the alias rows, commit) compute `AddDestination` |
| EngineStore.AddDestinationIs | hare-engine/hare_engine/database.py:200-250 | once validation passes, the insert is exactly the commit check on the pending tables: their contents on success, IntegrityError otherwise |
| EngineStore.AddDestinationKeepsValid | hare-engine/hare_engine/database.py:200-250 | the whole insert keeps the table invariant |
| EngineStore.DestinationStore.constructor | hare-engine/hare_engine/database.py:70-119 | empty tables satisfy the invariant |
| EngineStore.DestinationStore.AddDestinationWithAliases | hare-engine/hare_engine/database.py:181-250 | the tables become `AddDestination`'s result on success and stay unchanged, including the default flags, on any error; the invariant is kept |
| ArchiveRoutes.QuotedArguments | flask-archive/hare-engine/hare_engine/routes.py:73 | at most one argument per token, each non-empty and space-free |
| ArchiveRoutes.QuotedArgumentsAll | flask-archive/hare-engine/hare_engine/routes.py:73 | without empty tokens every token is kept, quoted, in order |
| ArchiveRoutes.QuotedArgumentsConcat | flask-archive/hare-engine/hare_engine/routes.py:73 | the filter distributes over concatenation, so token order is kept |
| ArchiveRoutes.QuotedArgumentsSingleton | flask-archive/hare-engine/hare_engine/routes.py:73 | one token is dropped exactly when it is empty, and otherwise quoted |
| ArchiveRoutes.QueryURLParameter | flask-archive/hare-engine/hare_engine/routes.py:64-74 | ValueError exactly when the query is blank; the alias is a non-empty, space-free first token; the arguments are non-empty and space-free |
| ArchiveRoutes.QueryRoundTrip | flask-archive/hare-engine/hare_engine/routes.py:64-74 | an alias and tokens joined by single spaces parse back to the alias and the quoted non-empty tokens |
| ArchiveRoutes.QuerySkipsEmpty | flask-archive/hare-engine/hare_engine/routes.py:70-74 | a doubled space between the alias and a token yields only that token, quoted |
| ArchiveRoutes.ResolveDestinationForQuery | flask-archive/hare-engine/hare_engine/routes.py:124-138 | the alias's destination with flag false; else the fallback alias's, else the default, both with flag true; 500 exactly when all three fail |
| ArchiveRoutes.MergeArguments | flask-archive/hare-engine/hare_engine/routes.py:173-175 | `n` arguments, the first `n-1` unchanged, and the same text when joined with spaces |
| ArchiveRoutes.ReconcileArguments | flask-archive/hare-engine/hare_engine/routes.py:169-175 | 400 exactly when too few; otherwise `n` arguments with the first `n-1` kept and the joined text unchanged; exactly `n` are passed through |
| ArchiveRoutes.FormatOrDefault | flask-archive/hare-engine/hare_engine/routes.py:177-185 | a successful format redirects to it; otherwise the default fallback formatted with `""`, or 500 |
| ArchiveRoutes.IndexGet | flask-archive/hare-engine/hare_engine/routes.py:148-185 | alias `list` redirects to the listing before any lookup; a failed resolution is 500; 400 only when the resolved destination wants more arguments than the query has |
| ArchiveRoutes.IndexZeroArgs | flask-archive/hare-engine/hare_engine/routes.py:159-160 | a destination taking no arguments is reached verbatim, whatever the arguments |
| ArchiveRoutes.IndexTooFew | flask-archive/hare-engine/hare_engine/routes.py:169-170 | a resolved alias with too few arguments is 400 |
| ArchiveRoutes.IndexDirectTemplate | flask-archive/hare-engine/hare_engine/routes.py:169-178 | a resolved template of `n` fields redirects to the template filled with the reconciled arguments |
| ArchiveRoutes.IndexFallbackTemplate | flask-archive/hare-engine/hare_engine/routes.py:162-164 | through the fallback alias, the alias and all arguments, space-joined, fill the fallback's single field |
| ArchiveRoutes.IndexNoDestination | flask-archive/hare-engine/hare_engine/routes.py:131-137 | with no match and no default fallback the answer is 500 |
| ArchiveRoutes.FormatFailureUsesDefault | flask-archive/hare-engine/hare_engine/routes.py:179-183 | a url that cannot be formatted redirects to the default fallback's template with an empty query |
| ArchiveRoutes.StrippedItems | flask-archive/hare-engine/hare_engine/routes.py:209 | at most one item per piece, each stripped |
| ArchiveRoutes.StrippedItemsConcat | flask-archive/hare-engine/hare_engine/routes.py:209 | the filter distributes over concatenation, so piece order is kept |
| ArchiveRoutes.StrippedItemsSingleton | flask-archive/hare-engine/hare_engine/routes.py:209 | one piece is dropped exactly when it is empty, and otherwise stripped |
| ArchiveRoutes.StrippedItemsMiddle | flask-archive/hare-engine/hare_engine/routes.py:209 | an empty piece between two stripped items is dropped and both items are kept, in order |
| ArchiveRoutes.ListURLParameter | flask-archive/hare-engine/hare_engine/routes.py:208-210 | ValueError exactly for an empty delimiter; otherwise stripped items, at most one per piece |
| ArchiveRoutes.ListRoundTrip | flask-archive/hare-engine/hare_engine/routes.py:208-210 | stripped, non-empty items free of a one-character delimiter survive a join and a parse |
| ArchiveRoutes.ListOfPieces | flask-archive/hare-engine/hare_engine/routes.py:208-210 | stripped text joined from delimiter-free pieces with a one-character delimiter parses to the non-empty pieces, stripped, in order |
| ArchiveRoutes.ListSkipsEmpty | flask-archive/hare-engine/hare_engine/routes.py:208-210 | a doubled delimiter between two items yields exactly those two items, the empty piece dropped |
| ArchiveRoutes.StringBool | flask-archive/hare-engine/hare_engine/routes.py:213-220 | true exactly when the lower-cased text is one of `true`, `t`, `yes`, `y`, `1`; so only for a text of one to four characters |
| ArchiveRoutes.StringBoolIgnoresCase | flask-archive/hare-engine/hare_engine/routes.py:217 | lower-casing the text first never changes the answer |
| ArchiveRoutes.StringBoolTrueExamples | flask-archive/hare-engine/hare_engine/routes.py:217-219 | `TRUE`, `Yes`, `T` and `1` are true |
| ArchiveRoutes.StringBoolFalseExamples | flask-archive/hare-engine/hare_engine/routes.py:217-220 | `false`, `no`, `0` and the empty text are false |
| EngineRoutes.QueryURLParameter | hare_engine/src/routes.py:68-77 | as in the archived engine, but the arguments are the non-empty tokens unquoted |
| EngineRoutes.QueryRoundTrip | hare_engine/src/routes.py:68-77 | an alias and non-empty tokens joined by single spaces parse back unchanged |
| EngineRoutes.QueryTokens | hare_engine/src/routes.py:74-77 | an alias and any space-free tokens joined by single spaces parse back to the alias and the non-empty tokens, in order |
| EngineRoutes.QuerySkipsEmpty | hare_engine/src/routes.py:74-77 | a doubled space between the alias and a token yields only that token |
| EngineRoutes.Resolve | hare_engine/src/routes.py:112-148 | the default fallback only without alias and fallback alias, else 500; `list` short-circuits only in the lookup branch; the alias, or the fallback alias when the alias is empty, must resolve, else 400 |
| EngineRoutes.FormattedArguments | hare_engine/src/routes.py:186-197 | a fallback gets all arguments space-joined and quoted as one; a direct destination gets 400 when too few, else its `n` reconciled arguments, each quoted |
| EngineRoutes.FormattedArgumentsAsWritten | hare_engine/src/routes.py:185-197 | as written, the arguments agree with the documented ones except for a direct destination given exactly its number of arguments, which gets none |
| EngineRoutes.IndexGet | hare_engine/src/routes.py:157-203 | the corrected route: only redirects, list redirects, 400 and 500; `list` goes to the listing |
| EngineRoutes.IndexGetAsWritten | hare_engine/src/routes.py:157-203 | as written, only redirects, list redirects, 400 and 500, and it differs from the corrected route only by a 400 for a direct destination given exactly its number of arguments |
| EngineRoutes.IndexZeroArgs | hare_engine/src/routes.py:182-184 | a destination taking no arguments is reached verbatim, whatever the arguments, in both versions |
| EngineRoutes.IndexTooFew | hare_engine/src/routes.py:189-192 | a direct destination given fewer arguments than it takes is 400, in both versions |
| EngineRoutes.ExactArgumentsRejected | hare_engine/src/routes.py:189-203 | as written, a direct destination given exactly its number of arguments is always 400 |
| EngineRoutes.ExactArgumentsAccepted | hare_engine/src/routes.py:189-203 | corrected, exactly `n` arguments fill a matching template, quoted and in order |
| EngineRoutes.DirectTemplate | hare_engine/src/routes.py:189-200 | at least `n` arguments fill a matching template with the reconciled, quoted arguments |
| EngineRoutes.FallbackTemplate | hare_engine/src/routes.py:186-187 | a fallback destination receives all arguments, without the alias, as one quoted argument, both as written and corrected |
| EngineRoutes.UnknownAliasNoFallThrough | hare_engine/src/routes.py:145-147 | an unknown alias is 400 even when a default fallback exists; the route's docstring (line 89) promises the fallback for an alias that does not exist, but the code answers 400 |
| EngineRoutes.ListURLParameter | hare_engine/src/routes.py:226-227 | ValueError exactly for an empty delimiter; otherwise at least one piece, no piece contains the delimiter, and joining them gives back the stripped text |
| EngineRoutes.AliasesOf | hare_engine/src/routes.py:308-309 | the names collected for a destination are exactly the names of the alias rows pointing at it |
| EngineRoutes.AliasesOfEmpty | hare_engine/src/routes.py:308-309 | a destination has no collected names exactly when no alias row points at it |
| EngineRoutes.GroupAliases | hare_engine/src/routes.py:306-309 | the grouping loop maps each destination id that has alias rows to its names in table order |
| EngineRoutes.ListRows | hare_engine/src/routes.py:319-325 | 500 exactly when a destination has no aliases; otherwise one row per destination with its names sorted by length and joined with `", "` |
| EngineRoutes.ListDestinations | hare_engine/src/routes.py:305-325 | the listing is `ListRows` over the destinations sorted by url and the grouped aliases |
| EngineRoutes.LengthOrder | hare_engine/src/routes.py:320 | ordering by length is a total preorder |
| EngineRoutes.UrlOrder | hare_engine/src/routes.py:318 | ordering by url is a total preorder |
| EngineRoutes.GroupsDomain | hare_engine/src/routes.py:306-309 | an id is grouped exactly when an alias row points at it |
| EngineRoutes.SameElements | hare_engine/src/routes.py:313-318 | sorting by url keeps exactly the destinations of the table |
| EngineRoutes.ListingFails | hare_engine/src/routes.py:319-325 | the listing fails exactly when some destination has no alias row |
| EngineRoutes.ListingRows | hare_engine/src/routes.py:313-323 | a successful listing is in url order, one row per destination, with that destination's own names |
| EngineRoutes.AliasesStable | hare_engine/src/routes.py:320 | names of equal length keep their table order |
| LegacyRoutes.FirstWhere | hare-engine/src/routes.py:51-53 | `.first()`: `None` exactly when no row matches, else a matching row of the table |
| LegacyRoutes.ResolveAlias | hare-engine/src/routes.py:48-53 | `None` exactly when no destination holds the alias, else one that does |
| LegacyRoutes.LowestPriorityFallback | hare-engine/src/routes.py:63-65 | a fallback whose priority is at most every fallback's (NULL first), `None` exactly without fallbacks |
| LegacyRoutes.ChooseFallback | hare-engine/src/routes.py:58-65 | the named fallback when one holds the name and is a fallback, else the lowest-priority fallback |
| LegacyRoutes.DirectToFallback | hare-engine/src/routes.py:55-66 | a redirect, or 500 when there is no fallback or `%` fails |
| LegacyRoutes.DirectToDestination | hare-engine/src/routes.py:68-79 | without argument rows and fallback flag the url is used verbatim; with them but with neither arguments nor a default the request fails with 500 |
| LegacyRoutes.ArgumentsToDestination | hare-engine/src/routes.py:73-78 | the arguments are space-joined, stripped and quoted into the `%s` slot |
| LegacyRoutes.DefaultToDestination | hare-engine/src/routes.py:76-78 | without arguments the first argument's default fills the slot |
| LegacyRoutes.SplitQuery | hare-engine/src/routes.py:97-104 | a space-free alias; `None` when nothing follows; kept tokens; alias and tokens joined again give the stripped query |
| LegacyRoutes.SplitQueryRoundTrip | hare-engine/src/routes.py:97-104 | an alias and tokens joined by single spaces split back unchanged |
| LegacyRoutes.MakeResponse | hare-engine/src/routes.py:86-109 | an unparsable request or a missing query redirects to the status-code page; every answer is a redirect or 500 |
| LegacyRoutes.ResolvedPlainVerbatim | hare-engine/src/routes.py:105-109 | a query whose alias resolves to a destination with no argument rows and no fallback flag redirects to its url verbatim |
| LegacyRoutes.ResolvedQueryToDestination | hare-engine/src/routes.py:97-109 | a resolved alias followed by tokens fills the destination's `%s` slot with the tokens space-joined, stripped and quoted |
| LegacyRoutes.ResolvedAliasToDefault | hare-engine/src/routes.py:101-109 | a query of a resolved alias alone fills the slot with the first argument's default |
| LegacyRoutes.UnresolvedQueryToFallback | hare-engine/src/routes.py:105-107 | an unresolved alias puts the whole query, alias included, quoted, into the chosen fallback's `%s` slot |
| LegacyRoutes.HighestPriority | hare-engine/src/routes.py:141-144 | a row at the top of a descending priority order (NULL last), `None` exactly for an empty table |
| LegacyRoutes.PriorityAsWritten | hare-engine/src/routes.py:139-148 | as written, a plain destination gets no priority; a computed fallback priority is above every existing one; the computation fails only when the table is non-empty and no row has a priority |
| LegacyRoutes.PriorityCrash | hare-engine/src/routes.py:139-148 | as written, a fallback posted to a non-empty table in which no row has a priority fails |
| LegacyRoutes.PriorityCrashExample | hare-engine/src/routes.py:139-148 | a table holding one plain destination is such a table |
| LegacyRoutes.MaxPriority | hare-engine/src/routes.py:141-148 | the largest priority present, `None` exactly when none is |
| LegacyRoutes.NewPriority | hare-engine/src/routes.py:139-148 | corrected, a plain destination gets no priority; a fallback gets 1 when no row has a priority, and otherwise one more than the largest priority, so above every existing one |
| LegacyRoutes.NewPriorityAgrees | hare-engine/src/routes.py:139-148 | where the code as written does not fail it computes the corrected priority |
| LegacyRoutes.NewDestination | hare-engine/src/routes.py:123-168 | a failed parse or a missing `argument` is 412; otherwise the row built from the request with the corrected priority is appended exactly when it commits, and any other answer leaves the table unchanged; a fallback's priority is above all others |
| LegacyRoutes.NewDestinationAsWritten | hare-engine/src/routes.py:123-168 | as written, the answer is 200, 412 or 500 and any failure leaves the table unchanged; it differs from the corrected route only by a 500 for a fallback posted to a non-empty table in which no row has a priority |
| LegacyRoutes.NewDestinationAgrees | hare-engine/src/routes.py:123-168 | wherever the code as written does not fail on the priority, it answers as the corrected route |
| LegacyRoutes.NewDestinationKeepsValid | hare-engine/src/database.py:45-47 | posting keeps urls unique and non-null priorities distinct |
| RequestParsing.Survivors | apps/common/flask.py:60 | the set of stripped non-empty items is empty exactly when every item is empty |
| RequestParsing.SurvivorsKept | apps/common/flask.py:60 | every non-empty item contributes its stripped form |
| RequestParsing.SurvivorsOnlyFrom | apps/common/flask.py:60 | every member of the set is the stripped form of some non-empty item |
| RequestParsing.SurvivorsExactly | apps/common/flask.py:60 | the set is exactly the stripped forms of the non-empty items |
| RequestParsing.CommaSeparatedList | apps/common/flask.py:59-65 | ArgumentTypeError exactly when every item is empty; otherwise exactly the set of the stripped forms of the non-empty items, each stripped and comma-free |
| RequestParsing.BlankItemGivesEmpty | apps/common/flask.py:60 | an item of blanks passes the filter and contributes `""` |
| RequestParsing.CommaSeparatedRoundTrip | apps/common/flask.py:60 | stripped, non-empty, comma-free names joined with commas come back as their set |
| RequestParsing.FlattenArguments | apps/common/flask.py:106-109 | each pair becomes `--key` followed by its value, in order |
| RequestParsing.ParseArguments | apps/common/flask.py:100-110 | GET uses the query pairs, POST and PUT the form pairs, and any other method gives the empty namespace |
| RequestParsing.RequestParser.constructor | apps/common/flask.py:44-47 | a new parser has no options |
| RequestParsing.RequestParser.AddArgument | apps/common/flask.py:67-78 | registers `--name` after the existing options and returns the parser itself |
| RequestParsing.ParserError | apps/common/flask.py:126-136 | always raises, with the message wrapped |
| UiViews.FirstSeenIds | hare/ui/views.py:75-81 | every destination with a row is listed exactly once, and no other |
| UiViews.CollectedEntries | hare/ui/views.py:75-83 | the mapping is keyed by the listed ids; each entry has its first row's url and description and all its names in row order |
| UiViews.NamesOfOwn | hare/ui/views.py:82-83 | a name is listed under a destination exactly when one of that destination's rows carries it |
| UiViews.FirstSeenOrder | hare/ui/views.py:73-76 | destinations are listed in the order of their first rows |
| UiViews.ListedByDescription | hare/ui/views.py:72-76 | rows ordered by description list the destinations in description order |
| UiViews.SortedLists | hare/ui/views.py:85-86 | each sorted alias list is in alphabetical order and holds the same names |
| UiViews.ScanRows | hare/ui/views.py:75-83 | the scan loop computes the first-seen keys and `Collected` |
| UiViews.SortAliasLists | hare/ui/views.py:85-86 | the sorting loop computes `AliasesSorted` |
| UiViews.GenDestinationsWithAliases | hare/ui/views.py:65-89 | the keys are first-seen; the lists are sorted, or left as scanned when a DatabaseError ended the scan |
| UiViews.FormValid | hare/ui/views.py:96-113 | creates with the form's fields and `is_default_fallback` false; redirects to the listing on success or on a caught DatabaseError or ValueError, and any other error is 500 |
| UiForms.BaseClean | hare/ui/forms.py:47 | the base cleaning always gives stripped text |
| UiForms.Cleaned | hare/ui/forms.py:54-58 | at most one element per piece, each stripped, and non-empty unless empty values are kept |
| UiForms.Kept | hare/ui/forms.py:56-58 | a piece contributes its stripped form, or nothing exactly when that is empty and empty values are dropped |
| UiForms.CleanedKeepsAll | hare/ui/forms.py:57-58 | with `keep_empty_values` every piece is kept, stripped, in order |
| UiForms.CleanedOfStripped | hare/ui/forms.py:54-59 | stripped non-empty pieces come through unchanged: no dedup, no reordering |
| UiForms.ToPythonValue | hare/ui/forms.py:46-59 | empty input gives the empty value; otherwise an error exactly for an empty delimiter; the items are stripped and non-empty unless kept |
| UiForms.CleanPieces | hare/ui/forms.py:54-58 | the loop computes `Cleaned` |
| UiForms.ToPython | hare/ui/forms.py:46-59 | the method computes `ToPythonValue` |
| UiForms.PrepareValue | hare/ui/forms.py:61-65 | always text; text passes through unchanged |
| UiForms.RoundTrip | hare/ui/forms.py:55-63 | with a one-character delimiter, stripped, non-empty, delimiter-free values survive being prepared and cleaned |
| UiForms.MultiCharacterRoundTripFails | hare/ui/forms.py:55-63 | with delimiter `aa`, the values `a`, `b` are prepared as `aaab` and clean to `ab` |
| LicenseHeader.ExtractFirst | hare/core/management/commands/licenseheader.py:36-44 | a newline-free prefix of the input, the whole input when it has no newline, otherwise ending right before the first newline |
| LicenseHeader.CommentedLines | hare/core/management/commands/licenseheader.py:49-50 | one commented line per line of the input |
| LicenseHeader.PrependCommentsLines | hare/core/management/commands/licenseheader.py:47-50 | the output's lines are exactly the input's lines, each behind `#` repeated and a space |
| LicenseHeader.Rewrite | hare/core/management/commands/licenseheader.py:100-108 | a file is written exactly in update mode, or when empty, or when its first line differs; add mode prepends the header, update mode replaces the header's length of text |
| LicenseHeader.AddThenAdd | hare/core/management/commands/licenseheader.py:100 | a header of several lines, once added, is not added again |
| LicenseHeader.UpdateIsIdempotent | hare/core/management/commands/licenseheader.py:101-108 | updating a file that starts with the header leaves it as it is |
| LicenseHeader.Handled | hare/core/management/commands/licenseheader.py:84-108 | one result per source path; a missing license, or a path that is not a file, writes nothing |
| LicenseHeader.Handle | hare/core/management/commands/licenseheader.py:78-108 | the loop computes `Handled`: non-files are skipped, the others rewritten by `Rewrite` |
| SettingsUtils.AllowedHosts | hare/conf/settings_utils.py:41-47 | unset or empty gives `[]`; every host is non-empty and comma-free |
| SettingsUtils.AllowedHostsRoundTrip | hare/conf/settings_utils.py:41-47 | non-empty comma-free hosts joined with commas are read back in order |
| SettingsUtils.AllowedHostsOfPieces | hare/conf/settings_utils.py:41-47 | comma-free pieces joined with commas are read back as the non-empty pieces, in order |
| SettingsUtils.AllowedHostsSkipsEmpty | hare/conf/settings_utils.py:47 | a doubled comma between two hosts yields exactly those two hosts |
| SettingsUtils.Databases | hare/conf/settings_utils.py:50-81 | sqlite3 by default, with ENGINE and NAME only; other engines but postgres are ImproperlyConfigured; postgres needs non-empty host, user and password and gives exactly six keys with defaults `hare` and `5432` |
| SettingsUtils.HostCheckedFirst | hare/conf/settings_utils.py:65-73 | without a host the error names the host, whatever user and password are |
| SettingsUtils.Debug | hare/conf/settings_utils.py:84-87 | true exactly unless `HARE_ENV` is `production` |
| CommonDatabase.Populated | apps/common/database.py:184-186 | the record keeps exactly its own fields |
| CommonDatabase.UnknownKeysIgnored | apps/common/database.py:185 | keys that are not fields change nothing |
| CommonDatabase.OverwriteTakesAll | apps/common/database.py:185-186 | with overwriting every field named in the dictionary takes its value |
| CommonDatabase.FillOnlyKeepsValues | apps/common/database.py:185-186 | without overwriting a field holding a value keeps it |
| CommonDatabase.PopulateIdempotent | apps/common/database.py:184-186 | populating twice with the same dictionary gives what once did |
| CommonDatabase.Record.PopulateFields | apps/common/database.py:165-187 | AssertionError, with no change, exactly for a non-dictionary or a non-`str` key; otherwise the fields become `Populated` and the record itself is returned |
| PyStr.DropEmptyConcat | hare_engine/src/routes.py:76 | dropping empty strings distributes over concatenation, so the order of what is kept is the input's |
| PyStr.DropEmptySingleton | hare_engine/src/routes.py:76 | one string is dropped exactly when it is empty |
| PyStr.DropEmptyMiddle | hare_engine/src/routes.py:76 | an empty string between two others is dropped and both are kept, in order |
| PyFormat.FormatTemplate | hare_engine/src/routes.py:200 | a brace-free template with `n` fields formats `n` or more arguments into it, and fewer raise IndexError |
| PyFormat.ParseTemplate | hare/core/models_utils.py:79 | such a template parses into one chunk per `{}` plus the trailing text |
| PyFormat.PercentOne | hare-engine/src/routes.py:66 | `%` fills the single `%s` slot; a url without one raises TypeError |
| UrlParse.SplitUnsplitHttp | hare/core/models_utils.py:56-64 | a netloc, path, query and fragment recombined under scheme `http` split back into the same components, the path gaining a leading `/` where needed |
| Quoting.UnquoteQuotePlus | hare-engine/hare_engine/database.py:243 | `quote_plus` loses nothing: decoding recovers the UTF-8 bytes |
| Quoting.QuotePlusSafe | hare-engine/hare_engine/database.py:243 | `quote_plus` output holds only unreserved characters, `%`, `+`, and no space |
| Sorting.SortBySorted | hare/ui/views.py:86 | the sort's result is sorted |
| Sorting.SortByStable | hare_engine/src/routes.py:320 | the sort is stable |

## Left out

- Database sessions, queries and drivers are not modelled. The tables are sequences. A commit is a check of the unique constraints. The pre-commit at hare-engine/hare_engine/database.py:221-224 is not modelled.
- `.first()` without ORDER BY is taken as the first matching row in table order. The source leaves the choice to the database.
- The alias query of the newer listing (hare_engine/src/routes.py:306-309) has no ORDER BY either; it is taken in table order, which `EngineRoutes.AliasesStable` relies on for names of equal length.
- `order_by(Destination.url)` is modelled as code-point order on the strings, SQLite's BINARY collation. Other collations differ.
- NULL ordering follows SQLite: ascending puts NULL first and descending puts it last. Other databases differ.
- Column types beyond strings, integers and booleans are not modelled.
- The Django `DestinationManager` methods are not part of this model. Their code is not in the repository; hare/core/models.py has an empty section for them.
- The archived and newer Flask `NewDestinationRoute`, and the archived listing route, are not part of this model. They only hand their parameters to the store.
- Redirect encoding, `url_for`, HTML rendering, JSON responses and logging are not modelled. Responses are `Outcome` values.
- `argparse` internals are not modelled: type conversion, `required`, and unknown-argument handling. `ParseArguments` returns the words handed to `parse_known_args`.
- `RequestParsing.RequestParser.AddArgument`: the keyword options (`type`, `default`, `choices`) are not modelled.
- `str.format` handles positional string arguments only. Conversions other than `!s`, format specs, attribute access and indexing in fields are errors in the model.
- `%` formatting knows only the `%s` specifier; any other `%` is an error.
- `urlsplit` is the RFC 1808 component split with the bracket check. Scheme-specific behaviour and the port check are not modelled. Neither are its input sanitising steps: stripping leading C0 control characters and spaces, and removing tab, CR and LF anywhere. The NFKC check on the network location, for characters that normalise into separators, is not modelled either. The bracket check is modelled: a network location holding only one of `[` and `]` fails the split with `Invalid IPv6 URL`, which both validators turn into ValueError.
- `str.lower` is ASCII-only in the model: only `A` to `Z` are lower-cased. Python also lower-cases other Unicode letters; the two differ only on non-ASCII text.
- `str.strip` and `str.splitlines` use a fixed set of whitespace and line-boundary characters, not the full Unicode tables.
- `quote_plus` encodes characters as UTF-8. Lone surrogates are not modelled.
- `SettingsUtils.Databases`: `base_dir.joinpath("hare.db")` is written as `base_dir + "/hare.db"`.
- `LicenseHeader.Handle`: file reads and writes, path globbing and the command's options are parameters. The write is the returned content.
- `UiViews.GenDestinationsWithAliases`: a DatabaseError is modelled as ending the scan after the delivered rows. The mapping's order is returned as a separate key sequence.
- `UiViews.FormValid`: the form's own validation is not modelled.
- `UiForms.RoundTrip`: the round trip is proved only for one-character delimiters. The field accepts longer ones, for which it can fail; `UiForms.MultiCharacterRoundTripFails` shows an instance.
- `UiForms.BaseClean`: Django's `CharField.to_python` is taken with its defaults: `None` and `""` are empty, other values are stripped text.
- `CommonDatabase.Record.PopulateFields`: attributes of the record that are not columns, such as methods, are not modelled as settable. Values are nulls, integers or strings.
- CLI scripts, app factories, configuration loading, the AWS CDK app, the API views, hashing, subprocess commands and test helpers are outside the core.

## Findings

| source | as written | input that shows it | evidently intended | confidence | as-written member | corrected member |
|---|---|---|---|---|---|---|
| hare_engine/src/routes.py:189-203 | when a direct destination gets exactly `num_args` arguments, nothing is assigned to `formatted_arguments`; the format raises `UnboundLocalError`, which the bare `except` answers with 400 | a destination `https://www.google.com/search?q={}` with alias `g` and the query `g cats` | exactly `num_args` arguments are quoted and used unchanged, as the route's docstring describes | high, not executed | EngineRoutes.ExactArgumentsRejected | EngineRoutes.ExactArgumentsAccepted |
| hare-engine/src/routes.py:139-148 | a new fallback's priority is one more than the priority of the first row in descending priority order over all destinations; when no row has a priority, that row's NULL priority makes the addition raise `TypeError`, giving 500 | a table with one plain destination `https://www.python.org/` (priority NULL), then posting a fallback | the first fallback gets priority 1, and later ones a priority above every existing one | medium, not executed | LegacyRoutes.PriorityCrash | LegacyRoutes.NewDestination |
