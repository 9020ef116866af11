/** The `licenseheader` management command: the license text turned into `#` comments and
    written at the top of source files, either added in front or replacing a header of its
    length. The file system is a parameter: the text of the license file and of each source
    file, `None` for a path that is not a file. */
module LicenseHeader {
  import opened Wrappers
  import opened PyStr

  /** `_extract_first_from_str`: everything before the first newline. */
  function ExtractFirst(content: string): (r: string)
    ensures |r| <= |content| && r == content[..|r|]
    ensures '\n' !in r
    ensures '\n' !in content ==> r == content
    ensures |r| < |content| ==> content[|r|] == '\n'
  {
    if content == "" then content
    else
      match Find(content, "\n")
      case None =>
        ContainsChar(content, '\n');
        content
      case Some(i) =>
        FirstNewline(content, i);
        content[..i]
  }

  lemma FirstNewline(content: string, i: nat)
    requires Find(content, "\n") == Some(i)
    ensures i < |content| && content[i] == '\n' && '\n' !in content[..i]
  {
    assert content[i..i + 1] == [content[i]];
    forall k | 0 <= k < i ensures content[k] != '\n' {
      assert content[k..k + 1] == [content[k]];
      assert !OccursAt(content, "\n", k);
    }
  }

  /** The comment prefix: `num_symbols` hashes and a space. */
  function CommentPrefix(numSymbols: int): string {
    Repeat("#", numSymbols) + " "
  }

  /** The lines of `content`, each behind the comment prefix. */
  function CommentedLines(content: string, numSymbols: int): (r: seq<string>)
    ensures |r| == |SplitLines(content)|
  {
    var lines := SplitLines(content);
    seq(|lines|, k requires 0 <= k < |lines| => CommentPrefix(numSymbols) + lines[k])
  }

  /** `_prepend_comments_to_lines`: the commented lines joined by newlines, with no newline
      after the last. */
  function PrependComments(content: string, numSymbols: int): string {
    Join("\n", CommentedLines(content, numSymbols))
  }

  lemma {:induction false} HashesNoBoundary(n: int)
    ensures NoLineBoundary(Repeat("#", n))
    decreases n
  {
    if n > 0 {
      HashesNoBoundary(n - 1);
      assert Repeat("#", n) == "#" + Repeat("#", n - 1);
    }
  }

  /** The output has one line per line of the input, each the input line behind the
      prefix. */
  lemma PrependCommentsLines(content: string, numSymbols: int)
    ensures SplitLines(PrependComments(content, numSymbols)) == CommentedLines(content, numSymbols)
  {
    var xs := CommentedLines(content, numSymbols);
    var lines := SplitLines(content);
    var p := CommentPrefix(numSymbols);
    HashesNoBoundary(numSymbols);
    assert NoLineBoundary(p);
    forall k | 0 <= k < |xs| ensures xs[k] != "" && NoLineBoundary(xs[k]) {
      assert xs[k] == p + lines[k];
    }
    SplitLinesJoin(xs);
  }

  /** The decision and rewrite for one source file given the commented license: `None` when
      the file is left alone. A file is written in update mode, when it is empty, or when its
      first line is not the license's; update mode drops as many leading characters as the
      header has. */
  function Rewrite(header: string, source: string, update: bool): (r: Option<string>)
    ensures r.Some? <==> update || source == "" || ExtractFirst(source) != ExtractFirst(header)
    ensures r.Some? && !update ==> r.value == header + source
    ensures r.Some? && update ==> r.value == header + (if |source| <= |header| then "" else source[|header|..])
  {
    if update || source == "" || ExtractFirst(source) != ExtractFirst(header) then
      Some(header + (if update then (if |source| <= |header| then "" else source[|header|..]) else source))
    else None
  }

  /** Adding a header of more than one line is stable: the next run in add mode leaves the
      file alone. */
  lemma AddThenAdd(header: string, source: string)
    requires '\n' in header
    ensures var once := Rewrite(header, source, false);
      once.Some? ==> Rewrite(header, once.value, false).None?
  {
    var once := Rewrite(header, source, false);
    if once.Some? {
      var f := ExtractFirst(header);
      assert f == header[..|f|] && |f| < |header|;
      FirstOfExtended(header, source);
    }
  }

  lemma FirstOfExtended(header: string, source: string)
    requires '\n' in header
    ensures ExtractFirst(header + source) == ExtractFirst(header)
  {
    var f := ExtractFirst(header);
    var g := ExtractFirst(header + source);
    assert |f| < |header|;
    assert (header + source)[..|f| + 1] == header[..|f| + 1];
    assert '\n' in (header + source)[..|f| + 1];
    assert g == (header + source)[..|f|] == header[..|f|];
  }

  /** Updating a file that starts with the header rewrites it unchanged. */
  lemma UpdateIsIdempotent(header: string, rest: string)
    ensures Rewrite(header, header + rest, true) == Some(header + rest)
  {
    if rest == "" {
      assert header + rest == header;
    } else {
      assert (header + rest)[|header|..] == rest;
    }
  }

  /** The new contents `handle` leaves in each file, `None` where it writes nothing. */
  function Handled(license: Option<string>, sources: seq<Option<string>>, update: bool): (r: seq<Option<string>>)
    ensures |r| == |sources|
    ensures forall k :: 0 <= k < |r| && (license.None? || sources[k].None?) ==> r[k].None?
  {
    if license.None? then seq(|sources|, k => None)
    else
      var header := PrependComments(license.value, 2);
      seq(|sources|, k requires 0 <= k < |sources| =>
        if sources[k].None? then None else Rewrite(header, sources[k].value, update))
  }

  /** `Command.handle`: reads the license, then visits every source path in turn. */
  method Handle(license: Option<string>, sources: seq<Option<string>>, update: bool)
    returns (written: seq<Option<string>>)
    ensures written == Handled(license, sources, update)
  {
    if license.None? {
      written := seq(|sources|, k => None);
      return;
    }
    var header := PrependComments(license.value, 2);
    written := [];
    var i := 0;
    while i < |sources|
      invariant i <= |sources|
      invariant |written| == i
      invariant forall k :: 0 <= k < i ==>
        written[k] == if sources[k].None? then None else Rewrite(header, sources[k].value, update)
    {
      var outcome := None;
      if sources[i].Some? {
        var source := sources[i].value;
        var first := ExtractFirst(source);
        if (!update && (source == "" || first != ExtractFirst(header))) || update {
          if update {
            source := if |source| <= |header| then "" else source[|header|..];
          }
          outcome := Some(header + source);
        }
      }
      written := written + [outcome];
      i := i + 1;
    }
  }
}
