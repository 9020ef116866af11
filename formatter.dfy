/** Brace templates: `string.Formatter().parse` (CPython's markup iterator, which also drives
    `str.format`), `str.format(*args)` with positional arguments, and `str % arg` with one
    string argument. */
module PyFormat {
  import opened Wrappers
  import opened PyStr

  /** A replacement field `{name!conversion:spec}`. */
  datatype Field = Field(name: string, spec: string, conversion: Option<char>)

  /** One item of `Formatter().parse(s)`: `(literal_text, field_name, format_spec, conversion)`,
      where `field` is `None` exactly when `field_name` is `None`. */
  datatype Chunk = Chunk(literal: string, field: Option<Field>)

  predicate IsBrace(c: char) {
    c == '{' || c == '}'
  }

  predicate BraceFree(s: string) {
    forall k :: 0 <= k < |s| ==> !IsBrace(s[k])
  }

  /** The index of the first brace in `s`, or `|s|`. */
  function NextBrace(s: string): (j: nat)
    ensures j <= |s| && (j < |s| ==> IsBrace(s[j]))
    ensures BraceFree(s[..j])
  {
    if s == "" || IsBrace(s[0]) then 0
    else
      var j := NextBrace(s[1..]);
      assert s[..1 + j] == [s[0]] + s[1..][..j];
      1 + j
  }

  /** The index of the character that ends a field name, scanning from `k`: the first `}`,
      `:` or `!` outside square brackets. A `{` outside brackets, or the end of the text,
      is an error. */
  function NameEnd(s: string, k: nat): (r: Result<nat>)
    requires k <= |s|
    ensures r.Ok? ==> k <= r.value < |s| && s[r.value] in {'}', ':', '!'}
    ensures r.Err? ==> r.error.kind == ValueError
    decreases |s| - k
  {
    if k == |s| then Raise(ValueError, "expected '}' before end of string")
    else if s[k] == '{' then Raise(ValueError, "unexpected '{' in field name")
    else if s[k] in {'}', ':', '!'} then Ok(k)
    else if s[k] == '[' then NameEnd(s, CloseBracket(s, k + 1))
    else NameEnd(s, k + 1)
  }

  /** The index of the first `]` at or after `k`, or `|s|`. */
  function CloseBracket(s: string, k: nat): (r: nat)
    requires k <= |s|
    ensures k <= r <= |s|
    decreases |s| - k
  {
    if k == |s| || s[k] == ']' then k else CloseBracket(s, k + 1)
  }

  /** The index of the `}` that closes a format spec, counting nested braces from `depth`. */
  function SpecEnd(s: string, k: nat, depth: nat): (r: Result<nat>)
    requires k <= |s| && depth >= 1
    ensures r.Ok? ==> k <= r.value < |s| && s[r.value] == '}'
    ensures r.Err? ==> r.error.kind == ValueError
    decreases |s| - k
  {
    if k == |s| then Raise(ValueError, "unmatched '{' in format spec")
    else if s[k] == '{' then SpecEnd(s, k + 1, depth + 1)
    else if s[k] == '}' then
      if depth == 1 then Ok(k) else SpecEnd(s, k + 1, depth - 1)
    else SpecEnd(s, k + 1, depth)
  }

  /** Parses the replacement field that follows a `{`; returns it with the text after its
      closing `}`. */
  function ParseField(s: string): (r: Result<(Field, string)>)
    ensures r.Ok? ==> |r.value.1| < |s|
    ensures r.Err? ==> r.error.kind == ValueError
  {
    var t :- NameEnd(s, 0);
    var name := s[..t];
    if s[t] == '}' then Ok((Field(name, "", None), s[t + 1..]))
    else if s[t] == ':' then
      var e :- SpecEnd(s, t + 1, 1);
      Ok((Field(name, s[t + 1..e], None), s[e + 1..]))
    else if t + 1 == |s| then Raise(ValueError, "end of string while looking for conversion specifier")
    else
      var conversion := s[t + 1];
      if t + 2 < |s| && s[t + 2] == '}' then Ok((Field(name, "", Some(conversion)), s[t + 3..]))
      else if t + 2 < |s| && s[t + 2] != ':' then Raise(ValueError, "expected ':' after conversion specifier")
      else
        var q := if t + 2 < |s| then t + 3 else t + 2;
        var e :- SpecEnd(s, q, 1);
        Ok((Field(name, s[q..e], Some(conversion)), s[e + 1..]))
  }

  /** One step of the markup iterator: the next chunk and the text after it, or `None` at
      the end of the text. `{{` and `}}` end a literal chunk holding one brace. */
  function NextChunk(s: string): (r: Result<Option<(Chunk, string)>>)
    ensures r.Ok? ==> (r.value.None? <==> s == "")
    ensures r.Ok? && r.value.Some? ==> |r.value.value.1| < |s|
    ensures r.Err? ==> r.error.kind == ValueError
  {
    if s == "" then Ok(None)
    else
      var j := NextBrace(s);
      if j == |s| then Ok(Some((Chunk(s, None), "")))
      else if s[j] == '}' && (j + 1 == |s| || s[j + 1] != '}') then
        Raise(ValueError, "Single '}' encountered in format string")
      else if j + 1 == |s| then Raise(ValueError, "Single '{' encountered in format string")
      else if s[j + 1] == s[j] then Ok(Some((Chunk(s[..j + 1], None), s[j + 2..])))
      else
        var fr :- ParseField(s[j + 1..]);
        Ok(Some((Chunk(s[..j], Some(fr.0)), fr.1)))
  }

  /** `list(string.Formatter().parse(s))`; any malformed brace raises ValueError. */
  function Parse(s: string): (r: Result<seq<Chunk>>)
    ensures r.Err? ==> r.error.kind == ValueError
    ensures r.Ok? ==> (r.value == [] <==> s == "")
    decreases |s|
  {
    var next :- NextChunk(s);
    match next
    case None => Ok([])
    case Some(cr) =>
      var rest :- Parse(cr.1);
      Ok([cr.0] + rest)
  }

  /** How `str.format` has numbered the fields so far. */
  datatype Numbering = Unset | Automatic(next: nat) | Manual

  predicate IsDecimal(s: string) {
    s != "" && forall k :: 0 <= k < |s| ==> '0' <= s[k] <= '9'
  }

  function DecimalValue(s: string): (n: nat)
    requires forall k :: 0 <= k < |s| ==> '0' <= s[k] <= '9'
    decreases |s|
  {
    if s == "" then 0 else DecimalValue(s[..|s| - 1]) * 10 + (s[|s| - 1] as int - '0' as int)
  }

  function DigitChar(d: nat): char
    requires d < 10
  {
    ('0' as int + d) as char
  }

  /** `str(n)`. */
  function NatToString(n: nat): (s: string)
    decreases n
  {
    if n < 10 then [DigitChar(n)] else NatToString(n / 10) + [DigitChar(n % 10)]
  }

  /** The argument a field refers to, and the numbering state after it. Empty names take the
      next automatic index; decimal names are manual indices; the two may not be mixed. */
  function FieldIndex(name: string, numbering: Numbering): (r: Result<(nat, Numbering)>)
    ensures r.Ok? && name == "" ==> numbering != Manual
    ensures r.Ok? && name == "" ==> r.value == (if numbering.Automatic? then numbering.next else 0,
                                                Automatic(if numbering.Automatic? then numbering.next + 1 else 1))
    ensures r.Ok? && name != "" ==> IsDecimal(name) && !numbering.Automatic? && r.value == (DecimalValue(name), Manual)
  {
    if name == "" then
      match numbering
      case Manual => Raise(ValueError, "cannot switch from manual field specification to automatic field numbering")
      case Unset => Ok((0, Automatic(1)))
      case Automatic(n) => Ok((n, Automatic(n + 1)))
    else if IsDecimal(name) then
      if numbering.Automatic? then
        Raise(ValueError, "cannot switch from automatic field numbering to manual field specification")
      else Ok((DecimalValue(name), Manual))
    else Raise(KeyError, name)
  }

  /** The text one field contributes. Only `!s` and an empty format spec are modelled. */
  function Substitute(f: Field, args: seq<string>, numbering: Numbering): (r: Result<(string, Numbering)>)
    ensures r.Ok? ==> f.spec == "" && (f.conversion.None? || f.conversion == Some('s'))
    ensures r.Ok? ==> exists i :: 0 <= i < |args| && r.value.0 == args[i]
  {
    var ix :- FieldIndex(f.name, numbering);
    if ix.0 >= |args| then
      Raise(IndexError, "Replacement index " + NatToString(ix.0) + " out of range for positional args tuple")
    else if f.conversion.Some? && f.conversion.value != 's' then
      if f.conversion.value in {'r', 'a'} then Raise(GenericException, "repr conversion is not modelled")
      else Raise(ValueError, "Unknown conversion specifier " + [f.conversion.value])
    else if f.spec != "" then Raise(GenericException, "format specs are not modelled")
    else Ok((args[ix.0], ix.1))
  }

  function FormatFrom(s: string, args: seq<string>, numbering: Numbering): Result<string>
    decreases |s|
  {
    var next :- NextChunk(s);
    match next
    case None => Ok("")
    case Some(cr) =>
      match cr.0.field
      case None =>
        var tail :- FormatFrom(cr.1, args, numbering);
        Ok(cr.0.literal + tail)
      case Some(f) =>
        var sub :- Substitute(f, args, numbering);
        var tail :- FormatFrom(cr.1, args, sub.1);
        Ok(cr.0.literal + sub.0 + tail)
  }

  /** `s.format(*args)`: fields are evaluated left to right while the text is parsed, so the
      first error met is the one raised. Surplus arguments are ignored. */
  function Format(s: string, args: seq<string>): Result<string> {
    FormatFrom(s, args, Unset)
  }

  /** A chunk holding a field with a non-empty name (a keyword or an explicit index). */
  predicate IsNamed(c: Chunk) {
    c.field.Some? && c.field.value.name != ""
  }

  /** A chunk holding an auto-numbered field `{}` (possibly with a spec or conversion). */
  predicate IsPositional(c: Chunk) {
    c.field.Some? && c.field.value.name == ""
  }

  /** The name of the first named field, if any. */
  function FirstNamedField(cs: seq<Chunk>): (r: Option<string>)
    ensures r.None? <==> forall k :: 0 <= k < |cs| ==> !IsNamed(cs[k])
    ensures r.Some? ==> r.value != "" && exists k :: 0 <= k < |cs| && IsNamed(cs[k]) && cs[k].field.value.name == r.value
    decreases |cs|
  {
    if cs == [] then None
    else
      var init := cs[..|cs| - 1];
      assert forall k :: 0 <= k < |init| ==> init[k] == cs[k];
      match FirstNamedField(init)
      case Some(n) => Some(n)
      case None => if IsNamed(cs[|cs| - 1]) then Some(cs[|cs| - 1].field.value.name) else None
  }

  /** The number of auto-numbered fields. */
  function PositionalCount(cs: seq<Chunk>): (n: nat)
    ensures n <= |cs|
    decreases |cs|
  {
    if cs == [] then 0
    else PositionalCount(cs[..|cs| - 1]) + (if IsPositional(cs[|cs| - 1]) then 1 else 0)
  }

  lemma {:induction false} PositionalCountConcat(a: seq<Chunk>, b: seq<Chunk>)
    ensures PositionalCount(a + b) == PositionalCount(a) + PositionalCount(b)
    decreases |b|
  {
    if b == [] {
      assert a + b == a;
    } else {
      var b' := b[..|b| - 1];
      assert (a + b)[..|a + b| - 1] == a + b';
      PositionalCountConcat(a, b');
    }
  }

  lemma {:induction false} FirstNamedFieldConcat(a: seq<Chunk>, b: seq<Chunk>)
    ensures FirstNamedField(a + b) == if FirstNamedField(a).Some? then FirstNamedField(a) else FirstNamedField(b)
    decreases |b|
  {
    if b == [] {
      assert a + b == a;
    } else {
      var b' := b[..|b| - 1];
      assert (a + b)[..|a + b| - 1] == a + b';
      FirstNamedFieldConcat(a, b');
    }
  }

  /** Once a named field has been seen, later chunks do not change which is first. */
  lemma {:induction false} FirstNamedFieldPrefix(cs: seq<Chunk>, j: nat)
    requires j <= |cs| && FirstNamedField(cs[..j]).Some?
    ensures FirstNamedField(cs) == FirstNamedField(cs[..j])
  {
    assert cs == cs[..j] + cs[j..];
    FirstNamedFieldConcat(cs[..j], cs[j..]);
  }

  /** A template made of brace-free literal pieces separated by `{}`. */
  function Template(lits: seq<string>): string
    requires lits != []
  {
    Join("{}", lits)
  }

  /** What `parse` yields for such a template: one auto-numbered field after every piece but
      the last, and the last piece as a field-less chunk unless it is empty. */
  function TemplateChunks(lits: seq<string>): seq<Chunk>
    requires lits != []
    decreases |lits|
  {
    if |lits| == 1 then (if lits[0] == "" then [] else [Chunk(lits[0], None)])
    else [Chunk(lits[0], Some(Field("", "", None)))] + TemplateChunks(lits[1..])
  }

  /** The pieces with the arguments from index `n` on placed between them. */
  function Interleave(lits: seq<string>, args: seq<string>, n: nat): string
    requires lits != [] && n + |lits| - 1 <= |args|
    decreases |lits|
  {
    if |lits| == 1 then lits[0] else lits[0] + args[n] + Interleave(lits[1..], args, n + 1)
  }

  lemma NextChunkLiteral(s: string)
    requires s != "" && BraceFree(s)
    ensures NextChunk(s) == Ok(Some((Chunk(s, None), "")))
  {
    assert NextBrace(s) == |s|;
  }

  /** The first step over `lit + "{}" + rest` yields `lit` with an empty field. */
  lemma NextChunkField(lit: string, rest: string)
    requires BraceFree(lit)
    ensures NextChunk(lit + "{}" + rest) == Ok(Some((Chunk(lit, Some(Field("", "", None))), rest)))
  {
    var s := lit + "{}" + rest;
    var j := NextBrace(s);
    assert s[|lit|] == '{' && s[|lit| + 1] == '}';
    assert j == |lit|;
    assert s[..j] == lit;
    var t := s[j + 1..];
    assert t == "}" + rest;
    assert NameEnd(t, 0) == Ok(0);
    assert t[1..] == rest;
  }

  lemma ParseLiteral(s: string)
    requires s != "" && BraceFree(s)
    ensures Parse(s) == Ok([Chunk(s, None)])
  {
    NextChunkLiteral(s);
    var r := NextChunk(s);
    assert !r.IsFailure() && r.Extract() == Some((Chunk(s, None), ""));
    assert Parse("") == Ok([]);
    assert [Chunk(s, None)] + [] == [Chunk(s, None)];
  }

  lemma ParseFieldStep(lit: string, rest: string)
    requires BraceFree(lit)
    ensures Parse(lit + "{}" + rest) ==
      match Parse(rest)
      case Ok(cs) => Ok([Chunk(lit, Some(Field("", "", None)))] + cs)
      case Err(e) => Err(e)
  {
    NextChunkField(lit, rest);
  }

  /** `parse` of a template: exactly the chunks `TemplateChunks` describes. */
  lemma {:induction false} ParseTemplate(lits: seq<string>)
    requires lits != [] && forall k :: 0 <= k < |lits| ==> BraceFree(lits[k])
    ensures Parse(Template(lits)) == Ok(TemplateChunks(lits))
    decreases |lits|
  {
    if |lits| == 1 {
      assert Template(lits) == lits[0];
      if lits[0] != "" {
        ParseLiteral(lits[0]);
      }
    } else {
      var rest := Template(lits[1..]);
      assert Template(lits) == lits[0] + "{}" + rest;
      ParseFieldStep(lits[0], rest);
      ParseTemplate(lits[1..]);
    }
  }

  function NextAuto(numbering: Numbering): nat {
    if numbering.Automatic? then numbering.next else 0
  }

  lemma FormatLiteral(s: string, args: seq<string>, numbering: Numbering)
    requires s != "" && BraceFree(s)
    ensures FormatFrom(s, args, numbering) == Ok(s)
  {
    NextChunkLiteral(s);
    assert FormatFrom("", args, numbering) == Ok("");
    assert s + "" == s;
  }

  lemma SubstituteAuto(args: seq<string>, numbering: Numbering)
    requires !numbering.Manual?
    ensures var n := NextAuto(numbering);
      var r := Substitute(Field("", "", None), args, numbering);
      (n < |args| ==> r == Ok((args[n], Automatic(n + 1))))
      && (n >= |args| ==> r.Err? && r.error.kind == IndexError)
  {
    var n := NextAuto(numbering);
    assert FieldIndex("", numbering) == Ok((n, Automatic(n + 1)));
  }

  lemma FormatFieldStep(lit: string, rest: string, args: seq<string>, numbering: Numbering)
    requires BraceFree(lit) && !numbering.Manual?
    ensures var n := NextAuto(numbering);
      var r := FormatFrom(lit + "{}" + rest, args, numbering);
      (n < |args| ==> r == match FormatFrom(rest, args, Automatic(n + 1))
                           case Ok(t) => Ok(lit + args[n] + t)
                           case Err(e) => Err(e))
      && (n >= |args| ==> r.Err? && r.error.kind == IndexError)
  {
    NextChunkField(lit, rest);
    var c := NextChunk(lit + "{}" + rest);
    assert !c.IsFailure() && c.Extract() == Some((Chunk(lit, Some(Field("", "", None))), rest));
    SubstituteAuto(args, numbering);
  }

  /** Formatting a template with auto-numbered fields places the arguments, in order,
      between the pieces; too few arguments is an IndexError. */
  lemma {:induction false} FormatTemplateFrom(lits: seq<string>, args: seq<string>, numbering: Numbering)
    requires lits != [] && forall k :: 0 <= k < |lits| ==> BraceFree(lits[k])
    requires !numbering.Manual? && NextAuto(numbering) <= |args|
    ensures var n := NextAuto(numbering);
      var r := FormatFrom(Template(lits), args, numbering);
      (n + |lits| - 1 <= |args| ==> r == Ok(Interleave(lits, args, n)))
      && (n + |lits| - 1 > |args| ==> r.Err? && r.error.kind == IndexError)
    decreases |lits|
  {
    var n := NextAuto(numbering);
    if |lits| == 1 {
      assert Template(lits) == lits[0];
      if lits[0] != "" {
        FormatLiteral(lits[0], args, numbering);
      }
    } else {
      var rest := Template(lits[1..]);
      assert Template(lits) == lits[0] + "{}" + rest;
      FormatFieldStep(lits[0], rest, args, numbering);
      if n < |args| {
        FormatTemplateFrom(lits[1..], args, Automatic(n + 1));
        assert NextAuto(Automatic(n + 1)) == n + 1;
      }
    }
  }

  lemma FormatTemplate(lits: seq<string>, args: seq<string>)
    requires lits != [] && forall k :: 0 <= k < |lits| ==> BraceFree(lits[k])
    ensures |lits| - 1 <= |args| ==> Format(Template(lits), args) == Ok(Interleave(lits, args, 0))
    ensures |lits| - 1 > |args| ==> Format(Template(lits), args).Err? && Format(Template(lits), args).error.kind == IndexError
  {
    FormatTemplateFrom(lits, args, Unset);
  }

  /** A template has no named field and one positional field per `{}`. */
  lemma {:induction false} TemplateChunksCount(lits: seq<string>)
    requires lits != []
    ensures FirstNamedField(TemplateChunks(lits)).None?
    ensures PositionalCount(TemplateChunks(lits)) == |lits| - 1
    ensures |TemplateChunks(lits)| == |lits| - 1 + (if lits[|lits| - 1] != "" then 1 else 0)
    decreases |lits|
  {
    if |lits| == 1 {
      var cs := TemplateChunks(lits);
      assert cs != [] ==> cs[..|cs| - 1] == [];
    } else {
      var head := [Chunk(lits[0], Some(Field("", "", None)))];
      TemplateChunksCount(lits[1..]);
      PositionalCountConcat(head, TemplateChunks(lits[1..]));
      FirstNamedFieldConcat(head, TemplateChunks(lits[1..]));
      assert head[..0] == [];
    }
  }

  /** `s % arg` for a single string argument: `%s` inserts it, `%%` is a percent sign.
      The other conversions and the flags, width and mapping keys are not modelled. */
  function PercentFrom(s: string, arg: string, used: bool): (r: Result<string>)
    decreases |s|
  {
    if s == "" then
      if used then Ok("") else Raise(TypeError, "not all arguments converted during string formatting")
    else if s[0] != '%' then
      var tail :- PercentFrom(s[1..], arg, used);
      Ok([s[0]] + tail)
    else if |s| == 1 then Raise(ValueError, "incomplete format")
    else if s[1] == '%' then
      var tail :- PercentFrom(s[2..], arg, used);
      Ok("%" + tail)
    else if s[1] == 's' then
      if used then Raise(TypeError, "not enough arguments for format string")
      else
        var tail :- PercentFrom(s[2..], arg, true);
        Ok(arg + tail)
    else Raise(GenericException, "conversion is not modelled")
  }

  function PercentFormat(s: string, arg: string): Result<string> {
    PercentFrom(s, arg, false)
  }

  lemma {:induction false} PercentPlain(s: string, arg: string, used: bool)
    requires '%' !in s
    ensures PercentFrom(s, arg, used) == if used then Ok(s) else Raise(TypeError, "not all arguments converted during string formatting")
    decreases |s|
  {
    if s != "" {
      PercentPlain(s[1..], arg, used);
      assert s == [s[0]] + s[1..];
    }
  }

  /** A url with one `%s` and no other `%` gets the argument in that place; a url with no
      `%` at all cannot take the argument. */
  lemma {:induction false} PercentOne(a: string, b: string, arg: string)
    requires '%' !in a && '%' !in b
    ensures PercentFormat(a + "%s" + b, arg) == Ok(a + arg + b)
    ensures PercentFormat(a, arg).Err? && PercentFormat(a, arg).error.kind == TypeError
    decreases |a|
  {
    PercentPlain(a, arg, false);
    PercentRest(a, b, arg);
  }

  lemma PercentSAt(b: string, arg: string)
    requires '%' !in b
    ensures PercentFrom("%s" + b, arg, false) == Ok(arg + b)
  {
    var s := "%s" + b;
    assert s[0] == '%' && s[1] == 's' && s[2..] == b;
    PercentPlain(b, arg, true);
  }

  lemma {:induction false} PercentRest(a: string, b: string, arg: string)
    requires '%' !in a && '%' !in b
    ensures PercentFrom(a + "%s" + b, arg, false) == Ok(a + arg + b)
    decreases |a|
  {
    if a == "" {
      assert a + "%s" + b == "%s" + b;
      PercentSAt(b, arg);
      assert a + arg + b == arg + b;
    } else {
      var s := a + "%s" + b;
      assert s[0] == a[0] && s[1..] == a[1..] + "%s" + b;
      PercentRest(a[1..], b, arg);
      assert [a[0]] + (a[1..] + arg + b) == a + arg + b;
    }
  }
}
