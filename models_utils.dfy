/** URL validation and positional-argument counting for destination templates, as the
    newest package does them before a destination is stored. */
module ModelsUtils {
  import opened Wrappers
  import opened UrlParse
  import opened PyFormat

  const HttpSchemes: set<string> := {"http", "https"}

  /** `validate_netloc_url`: the url must split, must name a network location, and may only
      use `http` or `https`; a missing scheme becomes `http`. */
  function ValidateNetlocUrl(url: string): (r: Result<string>)
    ensures r.Err? ==> r.error.kind == ValueError
    ensures UrlSplit(url).Err? ==> r == Raise(ValueError, "Invalid URL (" + UrlSplit(url).error.message + ")")
    ensures UrlSplit(url).Ok? && UrlSplit(url).value.netloc == "" ==> r == Raise(ValueError, "URL must point to website")
    ensures UrlSplit(url).Ok? && UrlSplit(url).value.netloc != "" ==>
      var scheme := UrlSplit(url).value.scheme;
      (scheme in HttpSchemes ==> r == Ok(url))
      && (scheme != "" && scheme !in HttpSchemes ==> r == Raise(ValueError, "Invalid scheme " + scheme))
    ensures r.Ok? ==> UrlSplit(url).Ok? && UrlSplit(url).value.netloc != ""
    ensures r.Ok? ==> UrlSplit(r.value).Ok? && UrlSplit(r.value).value.scheme in HttpSchemes
                      && UrlSplit(r.value).value.netloc == UrlSplit(url).value.netloc
  {
    match UrlSplit(url)
    case Err(e) => Raise(ValueError, "Invalid URL (" + e.message + ")")
    case Ok(parts) =>
      if parts.netloc == "" then Raise(ValueError, "URL must point to website")
      else if parts.scheme == "" then
        SplitUnsplitHttp(parts.netloc, parts.path, parts.query, parts.fragment);
        Ok(UrlUnsplit(parts.(scheme := "http")))
      else if parts.scheme !in HttpSchemes then Raise(ValueError, "Invalid scheme " + parts.scheme)
      else Ok(url)
  }

  /** A scheme-less url keeps its other components and gains scheme `http`. */
  lemma DefaultScheme(url: string)
    requires UrlSplit(url).Ok? && UrlSplit(url).value.scheme == "" && UrlSplit(url).value.netloc != ""
    ensures var p := UrlSplit(url).value;
      var path := if p.path != "" && p.path[0] != '/' then "/" + p.path else p.path;
      ValidateNetlocUrl(url).Ok?
      && UrlSplit(ValidateNetlocUrl(url).value) == Ok(SplitResult("http", p.netloc, path, p.query, p.fragment))
  {
    var p := UrlSplit(url).value;
    SplitUnsplitHttp(p.netloc, p.path, p.query, p.fragment);
    assert p.(scheme := "http") == SplitResult("http", p.netloc, p.path, p.query, p.fragment);
  }

  /** Validating a validated url accepts it and returns it unchanged. */
  lemma ValidateIdempotent(url: string)
    requires ValidateNetlocUrl(url).Ok?
    ensures ValidateNetlocUrl(ValidateNetlocUrl(url).value) == ValidateNetlocUrl(url)
  {
  }

  /** What `gen_num_args_from_url` computes: the number of `{}` fields, or ValueError when the
      template is malformed or any field has a name. */
  function NumArgs(url: string): (r: Result<nat>)
    ensures r.Err? ==> r.error.kind == ValueError
  {
    match Parse(url)
    case Err(e) => Err(e)
    case Ok(chunks) =>
      match FirstNamedField(chunks)
      case Some(name) => Raise(ValueError, "must not have keyword arguments (\"" + name + "\")")
      case None => Ok(PositionalCount(chunks))
  }

  /** `gen_num_args_from_url`: the loop over the parsed chunks. */
  method GenNumArgsFromUrl(url: string) returns (r: Result<nat>)
    ensures r == NumArgs(url)
  {
    var parsed := Parse(url);
    if parsed.Err? {
      return Err(parsed.error);
    }
    var formatArgs := parsed.value;
    var numArgs := 0;
    if |formatArgs| != 1 || formatArgs[0].field.Some? {
      var i := 0;
      while i < |formatArgs|
        invariant i <= |formatArgs|
        invariant FirstNamedField(formatArgs[..i]).None?
        invariant numArgs == PositionalCount(formatArgs[..i])
      {
        assert formatArgs[..i + 1][..i] == formatArgs[..i];
        var field := formatArgs[i].field;
        if field.Some? && field.value.name != "" {
          FirstNamedFieldPrefix(formatArgs, i + 1);
          return Raise(ValueError, "must not have keyword arguments (\"" + field.value.name + "\")");
        }
        if field.Some? && field.value.name == "" {
          numArgs := numArgs + 1;
        }
        i := i + 1;
      }
      assert formatArgs[..i] == formatArgs;
    } else {
      assert formatArgs[..0] == [];
    }
    return Ok(numArgs);
  }

  /** A template of brace-free pieces joined by `{}` has one argument per `{}`. */
  lemma NumArgsTemplate(lits: seq<string>)
    requires lits != [] && forall k :: 0 <= k < |lits| ==> BraceFree(lits[k])
    ensures NumArgs(Template(lits)) == Ok(|lits| - 1)
  {
    ParseTemplate(lits);
    TemplateChunksCount(lits);
  }

  /** Any named field is rejected, even next to positional fields. */
  lemma NumArgsRejectsNamed(url: string)
    requires Parse(url).Ok? && exists k :: 0 <= k < |Parse(url).value| && IsNamed(Parse(url).value[k])
    ensures NumArgs(url).Err? && NumArgs(url).error.kind == ValueError
  {
  }

  /** A scheme-less url made of a network location and an absolute path gains `http`. */
  lemma SchemeLessNetloc(netloc: string, path: string)
    requires netloc != "" && ':' !in netloc && ':' !in path
    requires Free(netloc, NetlocDelimiters) && ('[' in netloc) == (']' in netloc)
    requires path == "" || path[0] == '/'
    requires '?' !in path && '#' !in path
    ensures ValidateNetlocUrl("//" + netloc + path) == Ok("http:" + "//" + netloc + path)
  {
    SplitSchemeLess(netloc, path);
    var parts := SplitResult("", netloc, path, "", "");
    assert parts.(scheme := "http") == SplitResult("http", netloc, path, "", "");
    UnsplitHttpShape(netloc, path, "", "");
    assert path + "" + "" == path;
    Assoc3("http:", "//", netloc, path);
  }

  /** `//www.python.org/downloads` becomes `http://www.python.org/downloads`. */
  lemma SchemeLessExample()
    ensures ValidateNetlocUrl("//" + "www.python.org" + "/downloads") == Ok("http:" + "//" + "www.python.org" + "/downloads")
  {
    SchemeLessNetloc("www.python.org", "/downloads");
  }

  /** A bare domain has no `//`, hence no network location, and is rejected. */
  lemma BareDomainExample()
    ensures ValidateNetlocUrl("www.python.org") == Raise(ValueError, "URL must point to website")
  {
    var url := "www.python.org";
    NoColonNoScheme(url);
    assert url[..2] == "ww";
    NoSlashesNoNetloc(url);
  }

  /** An address and port without `//` are no scheme and no network location either. */
  lemma IpPortExample()
    ensures ValidateNetlocUrl("127.0.0.1:8000") == Raise(ValueError, "URL must point to website")
  {
    var url := "127.0.0.1:8000";
    NonLetterNoScheme(url);
    assert url[..2] == "12";
    NoSlashesNoNetloc(url);
  }
}
