/** The Python `str` operations the modelled code calls: `strip`, `find`,
    `split` with an explicit separator, `join`, `splitlines`, `lower` and
    repetition. Strings are sequences of Unicode scalar values. */
module PyStr {
  import opened Wrappers

  /** Characters for which `str.isspace()` holds; `str.strip()` removes these. */
  predicate IsSpace(c: char) {
    || c == ' '
    || '\t' <= c <= '\r'
    || '\U{1c}' <= c <= '\U{1f}'
    || c == '\U{85}' || c == '\U{a0}' || c == '\U{1680}'
    || '\U{2000}' <= c <= '\U{200a}'
    || c == '\U{2028}' || c == '\U{2029}' || c == '\U{202f}' || c == '\U{205f}' || c == '\U{3000}'
  }

  predicate AllSpace(s: string) {
    forall k :: 0 <= k < |s| ==> IsSpace(s[k])
  }

  /** Neither starts nor ends with whitespace. */
  predicate IsStripped(s: string) {
    s == "" || (!IsSpace(s[0]) && !IsSpace(s[|s| - 1]))
  }

  /** `str.strip()`: drops the leading and the trailing whitespace and nothing else. */
  function Strip(s: string): (r: string)
    ensures |r| <= |s|
    ensures IsStripped(r)
    ensures r == "" <==> AllSpace(s)
    decreases |s|
  {
    if s == "" then s
    else if IsSpace(s[0]) then
      AllSpaceTail(s);
      Strip(s[1..])
    else if IsSpace(s[|s| - 1]) then
      AllSpaceInit(s);
      Strip(s[..|s| - 1])
    else s
  }

  lemma AllSpaceTail(s: string)
    requires s != "" && IsSpace(s[0])
    ensures AllSpace(s) <==> AllSpace(s[1..])
  {
    if AllSpace(s[1..]) {
      forall k | 0 < k < |s| ensures IsSpace(s[k]) {
        assert s[k] == s[1..][k - 1];
      }
    }
  }

  lemma AllSpaceInit(s: string)
    requires s != "" && IsSpace(s[|s| - 1])
    ensures AllSpace(s) <==> AllSpace(s[..|s| - 1])
  {
    if AllSpace(s[..|s| - 1]) {
      forall k | 0 <= k < |s| - 1 ensures IsSpace(s[k]) {
        assert s[k] == s[..|s| - 1][k];
      }
    }
  }

  /** Stripping a string that neither starts nor ends with whitespace changes nothing. */
  lemma StripUnchanged(s: string)
    requires IsStripped(s)
    ensures Strip(s) == s
  {
  }

  /** Stripping twice strips nothing more. */
  lemma StripIdempotent(s: string)
    ensures Strip(Strip(s)) == Strip(s)
  {
    StripUnchanged(Strip(s));
  }

  /** `[t for t in ts if t]`: the non-empty strings, in order. */
  function DropEmpty(ts: seq<string>): (r: seq<string>)
    ensures |r| <= |ts|
    ensures forall k :: 0 <= k < |r| ==> r[k] != "" && r[k] in ts
  {
    if ts == [] then []
    else
      var rest := DropEmpty(ts[1..]);
      assert forall k :: 0 <= k < |rest| ==> rest[k] in ts;
      if ts[0] == "" then rest else [ts[0]] + rest
  }

  /** Nothing is dropped when nothing is empty. */
  lemma {:induction false} DropEmptyAll(ts: seq<string>)
    requires forall k :: 0 <= k < |ts| ==> ts[k] != ""
    ensures DropEmpty(ts) == ts
    decreases |ts|
  {
    if ts != [] {
      DropEmptyAll(ts[1..]);
      assert ts == [ts[0]] + ts[1..];
    }
  }

  /** Filtering distributes over concatenation. */
  lemma {:induction false} DropEmptyConcat(a: seq<string>, b: seq<string>)
    ensures DropEmpty(a + b) == DropEmpty(a) + DropEmpty(b)
    decreases |a|
  {
    if a != [] {
      var ab := a + b;
      assert ab[0] == a[0] && ab[1..] == a[1..] + b;
      DropEmptyConcat(a[1..], b);
      if a[0] != "" {
        var x, y, z := [a[0]], DropEmpty(a[1..]), DropEmpty(b);
        assert x + (y + z) == (x + y) + z;
      }
    } else {
      assert a + b == b;
    }
  }

  /** A single string is dropped exactly when it is empty. */
  lemma DropEmptySingleton(t: string)
    ensures DropEmpty([t]) == if t == "" then [] else [t]
  {
    assert [t][1..] == [];
  }

  /** An empty string between two others is dropped and both are kept, in order. */
  lemma DropEmptyMiddle(a: string, t: string)
    requires a != "" && t != ""
    ensures DropEmpty([a, "", t]) == [a, t]
  {
    assert [a, "", t][1..] == ["", t] && ["", t][1..] == [t];
    DropEmptySingleton(t);
  }

  /** Stripping removes characters and adds none. */
  lemma {:induction false} StripKeepsOut(s: string, c: char)
    ensures c !in s ==> c !in Strip(s)
    decreases |s|
  {
    if c !in s && s != "" {
      if IsSpace(s[0]) {
        SliceKeepsOut(s, 1, |s|, c);
        StripKeepsOut(s[1..], c);
      } else if IsSpace(s[|s| - 1]) {
        SliceKeepsOut(s, 0, |s| - 1, c);
        StripKeepsOut(s[..|s| - 1], c);
      }
    }
  }

  lemma SliceKeepsOut(s: string, i: nat, j: nat, c: char)
    requires i <= j <= |s| && c !in s
    ensures c !in s[i..j]
  {
    forall k | 0 <= k < j - i ensures s[i..j][k] != c {
      assert s[i..j][k] == s[i + k];
    }
  }

  /** `sub` occurs in `s` at index `j`. */
  predicate OccursAt(s: string, sub: string, j: int) {
    0 <= j && j + |sub| <= |s| && s[j..j + |sub|] == sub
  }

  /** The first index at or after `j` where `sub` occurs in `s`. */
  function IndexFrom(s: string, sub: string, j: nat): (r: Option<nat>)
    requires j <= |s|
    ensures r.Some? ==> j <= r.value && OccursAt(s, sub, r.value)
    ensures r.Some? ==> forall k :: j <= k < r.value ==> !OccursAt(s, sub, k)
    ensures r.None? ==> forall k :: j <= k ==> !OccursAt(s, sub, k)
    decreases |s| - j
  {
    if OccursAt(s, sub, j) then Some(j)
    else if j + |sub| >= |s| then None
    else IndexFrom(s, sub, j + 1)
  }

  /** `str.find(sub)`, with `None` standing for -1. */
  function Find(s: string, sub: string): (r: Option<nat>)
    ensures r.Some? ==> OccursAt(s, sub, r.value) && forall k :: 0 <= k < r.value ==> !OccursAt(s, sub, k)
    ensures r.None? ==> forall k :: !OccursAt(s, sub, k)
  {
    IndexFrom(s, sub, 0)
  }

  /** `sub in s` for strings. */
  predicate Contains(s: string, sub: string) {
    Find(s, sub).Some?
  }

  /** `str.split(sep)` with an explicit, non-empty separator (an empty one raises in Python,
      which callers model themselves). */
  function Split(s: string, sep: string): (r: seq<string>)
    requires sep != ""
    ensures |r| >= 1
    decreases |s|
  {
    match Find(s, sep)
    case None => [s]
    case Some(i) => [s[..i]] + Split(s[i + |sep|..], sep)
  }

  /** `sep.join(xs)`. */
  function Join(sep: string, xs: seq<string>): string {
    if |xs| == 0 then ""
    else if |xs| == 1 then xs[0]
    else xs[0] + sep + Join(sep, xs[1..])
  }

  lemma {:induction false} JoinAppend(sep: string, xs: seq<string>, y: string)
    requires xs != []
    ensures Join(sep, xs + [y]) == Join(sep, xs) + sep + y
    decreases |xs|
  {
    if |xs| == 1 {
      assert xs + [y] == [xs[0], y];
    } else {
      assert (xs + [y])[1..] == xs[1..] + [y];
      JoinAppend(sep, xs[1..], y);
    }
  }

  lemma {:induction false} JoinConcat(sep: string, xs: seq<string>, ys: seq<string>)
    requires xs != [] && ys != []
    ensures Join(sep, xs + ys) == Join(sep, xs) + sep + Join(sep, ys)
    decreases |xs|
  {
    if |xs| == 1 {
      assert (xs + ys)[1..] == ys;
    } else {
      assert (xs + ys)[1..] == xs[1..] + ys;
      JoinConcat(sep, xs[1..], ys);
    }
  }

  /** Joining the pieces of a split with the same separator gives back the string. */
  lemma {:induction false} JoinSplit(s: string, sep: string)
    requires sep != ""
    ensures Join(sep, Split(s, sep)) == s
    decreases |s|
  {
    match Find(s, sep)
    case None =>
    case Some(i) =>
      var rest := s[i + |sep|..];
      var ps := Split(rest, sep);
      JoinSplit(rest, sep);
      var xs := [s[..i]] + ps;
      assert Split(s, sep) == xs;
      assert xs[1..] == ps;
      assert Join(sep, xs) == s[..i] + sep + Join(sep, ps);
      assert s[i..i + |sep|] == sep;
      assert s == s[..i] + s[i..i + |sep|] + rest;
  }

  /** No piece of a split contains the separator. */
  lemma {:induction false} SplitPiecesFree(s: string, sep: string)
    requires sep != ""
    ensures forall k :: 0 <= k < |Split(s, sep)| ==> !Contains(Split(s, sep)[k], sep)
    decreases |s|
  {
    match Find(s, sep)
    case None =>
    case Some(i) =>
      var rest := s[i + |sep|..];
      SplitPiecesFree(rest, sep);
      var head := s[..i];
      forall k ensures !OccursAt(head, sep, k) {
        if 0 <= k && k + |sep| <= |head| {
          assert head[k..k + |sep|] == s[k..k + |sep|];
          assert !OccursAt(s, sep, k);
        }
      }
      assert Split(s, sep) == [head] + Split(rest, sep);
  }

  /** For a one-character separator, splitting a join gives back its pieces when no piece
      holds the separator. */
  lemma {:induction false} SplitJoin(xs: seq<string>, c: char)
    requires xs != []
    requires forall k :: 0 <= k < |xs| ==> c !in xs[k]
    ensures Split(Join([c], xs), [c]) == xs
    decreases |xs|
  {
    var s := Join([c], xs);
    if |xs| == 1 {
      forall k | 0 <= k < |s| ensures !OccursAt(s, [c], k) {
        assert s[k..k + 1] == [xs[0][k]];
      }
    } else {
      assert s == xs[0] + [c] + Join([c], xs[1..]);
      var n := |xs[0]|;
      assert s[n..n + 1] == [c];
      forall k | 0 <= k < n ensures !OccursAt(s, [c], k) {
        assert s[k..k + 1] == [xs[0][k]];
      }
      assert OccursAt(s, [c], n);
      var f := Find(s, [c]);
      assert f.Some?;
      assert f.value <= n;
      assert f.value >= n;
      assert Find(s, [c]) == Some(n);
      assert s[..n] == xs[0];
      assert s[n + 1..] == Join([c], xs[1..]);
      SplitJoin(xs[1..], c);
    }
  }

  /** A string without `c` has no occurrence of `[c]`, and conversely. */
  lemma ContainsChar(s: string, c: char)
    ensures Contains(s, [c]) <==> c in s
  {
    if c in s {
      var k :| 0 <= k < |s| && s[k] == c;
      assert s[k..k + 1] == [c];
      assert OccursAt(s, [c], k);
    }
    if Contains(s, [c]) {
      var i := Find(s, [c]).value;
      assert s[i..i + 1] == [c];
      assert s[i] == c;
    }
  }

  /** The pieces of a split on a one-character separator do not hold it. */
  lemma SplitCharPieces(s: string, c: char)
    ensures forall k :: 0 <= k < |Split(s, [c])| ==> c !in Split(s, [c])[k]
  {
    SplitPiecesFree(s, [c]);
    forall k | 0 <= k < |Split(s, [c])| ensures c !in Split(s, [c])[k] {
      ContainsChar(Split(s, [c])[k], c);
    }
  }

  /** The first piece of a split is a prefix, non-empty when the string does not begin
      with the separator. */
  lemma {:induction false} SplitFirst(s: string, c: char)
    ensures |Split(s, [c])[0]| <= |s| && Split(s, [c])[0] == s[..|Split(s, [c])[0]|]
    ensures s != "" && s[0] != c ==> Split(s, [c])[0] != ""
  {
    match Find(s, [c])
    case None =>
      assert s[..|s|] == s;
    case Some(i) =>
      assert s[i..i + 1] == [c];
  }

  lemma JoinCons(sep: string, x: string, ys: seq<string>)
    requires ys != []
    ensures Join(sep, [x] + ys) == x + sep + Join(sep, ys)
  {
    assert ([x] + ys)[1..] == ys;
  }

  /** Joining with an empty piece in the middle doubles the separator. */
  lemma JoinWithEmpty(sep: string, a: string, t: string)
    ensures Join(sep, [a, "", t]) == a + sep + sep + t
  {
    assert [a, "", t] == [a] + ["", t];
    JoinCons(sep, a, ["", t]);
    assert ["", t] == [""] + [t];
    JoinCons(sep, "", [t]);
    assert Join(sep, [t]) == t;
    assert a + sep + ("" + sep + t) == a + sep + sep + t;
  }

  /** A join of several pieces holds at least one separator. */
  lemma JoinLength(sep: string, xs: seq<string>)
    ensures |Join(sep, xs)| >= if |xs| > 1 then |sep| else 0
  {
  }

  /** Only the empty string joins to nothing. */
  lemma JoinEmpty(sep: string, xs: seq<string>)
    requires xs != [] && sep != "" && Join(sep, xs) == ""
    ensures xs == [""]
  {
    JoinLength(sep, xs);
  }

  /** A join starts with the first character of its first piece. */
  lemma JoinFirst(sep: string, xs: seq<string>)
    requires xs != [] && xs[0] != ""
    ensures Join(sep, xs) != "" && Join(sep, xs)[0] == xs[0][0]
  {
  }

  /** A join ends with the last character of its last piece. */
  lemma {:induction false} JoinLast(sep: string, xs: seq<string>)
    requires xs != [] && xs[|xs| - 1] != ""
    ensures var j := Join(sep, xs); j != "" && j[|j| - 1] == xs[|xs| - 1][|xs[|xs| - 1]| - 1]
    decreases |xs|
  {
    if |xs| > 1 {
      JoinLast(sep, xs[1..]);
    }
  }

  /** Line boundaries recognised by `str.splitlines()`. */
  predicate IsLineBoundary(c: char) {
    || c == '\n' || c == '\r' || c == '\U{b}' || c == '\U{c}'
    || '\U{1c}' <= c <= '\U{1e}'
    || c == '\U{85}' || c == '\U{2028}' || c == '\U{2029}'
  }

  predicate NoLineBoundary(s: string) {
    forall k :: 0 <= k < |s| ==> !IsLineBoundary(s[k])
  }

  /** The index of the first line boundary in `s`, or `|s|` when there is none. */
  function LineEnd(s: string): (i: nat)
    ensures i <= |s| && (i < |s| ==> IsLineBoundary(s[i]))
    ensures NoLineBoundary(s[..i])
  {
    if s == "" || IsLineBoundary(s[0]) then 0
    else
      var j := LineEnd(s[1..]);
      assert s[..1 + j] == [s[0]] + s[1..][..j];
      1 + j
  }

  /** `str.splitlines()`: lines without their terminators; `"\r\n"` is one terminator and a
      final terminator does not start an empty last line. */
  function SplitLines(s: string): (r: seq<string>)
    ensures forall k :: 0 <= k < |r| ==> NoLineBoundary(r[k])
    decreases |s|
  {
    if s == "" then []
    else
      var i := LineEnd(s);
      if i == |s| then [s]
      else
        var w := if s[i] == '\r' && i + 1 < |s| && s[i + 1] == '\n' then 2 else 1;
        [s[..i]] + SplitLines(s[i + w..])
  }

  /** Joining boundary-free, non-empty lines with `"\n"` and splitting them again is the identity. */
  lemma {:induction false} SplitLinesJoin(xs: seq<string>)
    requires forall k :: 0 <= k < |xs| ==> xs[k] != "" && NoLineBoundary(xs[k])
    ensures SplitLines(Join("\n", xs)) == xs
    decreases |xs|
  {
    var s := Join("\n", xs);
    if |xs| > 1 {
      var n := |xs[0]|;
      assert s == xs[0] + "\n" + Join("\n", xs[1..]);
      var i := LineEnd(s);
      assert s[n] == '\n';
      assert i <= n;
      assert i >= n;
      assert i == n;
      assert s[..n] == xs[0];
      assert s[n + 1..] == Join("\n", xs[1..]);
      SplitLinesJoin(xs[1..]);
    }
  }

  /** ASCII lower-casing, the part of `str.lower()` the modelled code depends on. */
  function LowerChar(c: char): char {
    if 'A' <= c <= 'Z' then (c as int + 32) as char else c
  }

  function Lower(s: string): (r: string)
    ensures |r| == |s| && forall k :: 0 <= k < |s| ==> r[k] == LowerChar(s[k])
  {
    seq(|s|, k requires 0 <= k < |s| => LowerChar(s[k]))
  }

  /** `s * n`: `n` copies of `s`; no copies when `n` is zero or negative. */
  function Repeat(s: string, n: int): (r: string)
    ensures |r| == if n <= 0 then 0 else n * |s|
    decreases n
  {
    if n <= 0 then "" else s + Repeat(s, n - 1)
  }
}
