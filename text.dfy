/** The operations on Rust's `str` and `String` that the core relies on:
    whitespace trimming, substring search, ASCII lowercasing, line splitting,
    splitting and joining on a separator, and the lexicographic order of
    `String`'s `Ord`, with the sorted key list of a map built from it. */
module Text {
  import opened Wrappers

  /** `char::is_whitespace`: the characters with the Unicode White_Space property. */
  predicate IsWhitespace(c: char) {
    ('\t' <= c <= '\r') || c == ' ' || c == '\U{0085}' || c == '\U{00A0}' || c == '\U{1680}'
    || ('\U{2000}' <= c <= '\U{200A}') || c == '\U{2028}' || c == '\U{2029}'
    || c == '\U{202F}' || c == '\U{205F}' || c == '\U{3000}'
  }

  /** The end of the run of whitespace that starts at `k`: the first non-whitespace position at
      or after `k`, or the end of `s`. */
  function WhitespaceRunEnd(s: string, k: nat): (n: nat)
    requires k <= |s|
    ensures k <= n <= |s|
    ensures forall i :: k <= i < n ==> IsWhitespace(s[i])
    ensures n == |s| || !IsWhitespace(s[n])
    decreases |s| - k
  {
    if k < |s| && IsWhitespace(s[k]) then WhitespaceRunEnd(s, k + 1) else k
  }

  /** The start of the run of whitespace that ends at `k`. */
  function WhitespaceRunStart(s: string, k: nat): (n: nat)
    requires k <= |s|
    ensures n <= k
    ensures forall i :: n <= i < k ==> IsWhitespace(s[i])
    ensures n == 0 || !IsWhitespace(s[n - 1])
  {
    if k > 0 && IsWhitespace(s[k - 1]) then WhitespaceRunStart(s, k - 1) else k
  }

  /** `str::trim_start`: drops the leading whitespace, and only that. */
  function TrimStart(s: string): (r: string)
    ensures |r| <= |s| && r == s[|s| - |r|..]
    ensures r == [] || !IsWhitespace(r[0])
    ensures forall i :: 0 <= i < |s| - |r| ==> IsWhitespace(s[i])
  {
    s[WhitespaceRunEnd(s, 0)..]
  }

  /** `str::trim_end`: drops the trailing whitespace, and only that. */
  function TrimEnd(s: string): (r: string)
    ensures |r| <= |s| && r == s[..|r|]
    ensures r == [] || !IsWhitespace(r[|r| - 1])
    ensures forall i :: |r| <= i < |s| ==> IsWhitespace(s[i])
  {
    s[..WhitespaceRunStart(s, |s|)]
  }

  /** `str::trim`. */
  function Trim(s: string): (r: string)
    ensures |r| <= |s|
    ensures r == [] || (!IsWhitespace(r[0]) && !IsWhitespace(r[|r| - 1]))
  {
    TrimEnd(TrimStart(s))
  }

  /** Trimming drops whitespace only: the result is a slice of the input with nothing but
      whitespace before and after it. */
  lemma TrimDropsOnlyWhitespace(s: string)
    ensures exists lo :: SurroundedAt(s, Trim(s), lo)
  {
    var t := TrimStart(s);
    var lo := |s| - |t|;
    var r := TrimEnd(t);
    assert r == Trim(s);
    assert t == s[lo..] && r == t[..|r|];
    assert r == s[lo..lo + |r|];
    assert forall i :: 0 <= i < lo ==> IsWhitespace(s[i]);
    forall i | lo + |r| <= i < |s|
      ensures IsWhitespace(s[i])
    {
      assert s[i] == t[i - lo];
    }
    assert SurroundedAt(s, r, lo);
  }


  /** `r` sits at `lo` in `s` with only whitespace before and after it. */
  predicate SurroundedAt(s: string, r: string, lo: nat) {
    lo + |r| <= |s| && r == s[lo..lo + |r|] &&
    (forall i :: 0 <= i < lo ==> IsWhitespace(s[i])) &&
    (forall i :: lo + |r| <= i < |s| ==> IsWhitespace(s[i]))
  }

  /** Trimming a trimmed text changes nothing. */
  lemma TrimIdempotent(s: string)
    ensures Trim(Trim(s)) == Trim(s)
  {
    var t := Trim(s);
    assert TrimStart(t) == t;
    assert TrimEnd(t) == t;
  }

  /** A position with only whitespace before it and none at it is where the leading run ends. */
  lemma RunEndUnique(s: string, n: nat)
    requires n <= |s| && forall i :: 0 <= i < n ==> IsWhitespace(s[i])
    requires n == |s| || !IsWhitespace(s[n])
    ensures WhitespaceRunEnd(s, 0) == n
  {
  }

  /** Whitespace put in front of a text does not survive trimming. */
  lemma TrimSkipsLeadingWhitespace(w: string, s: string)
    requires forall i :: 0 <= i < |w| ==> IsWhitespace(w[i])
    ensures TrimStart(w + s) == TrimStart(s)
    ensures Trim(w + s) == Trim(s)
  {
    var m := WhitespaceRunEnd(s, 0);
    var ws := w + s;
    forall i | 0 <= i < |w| + m ensures IsWhitespace(ws[i]) {
      if i < |w| {
        assert ws[i] == w[i];
      } else {
        assert ws[i] == s[i - |w|];
      }
    }
    if m < |s| {
      assert ws[|w| + m] == s[m];
    }
    RunEndUnique(ws, |w| + m);
    assert ws[|w| + m..] == s[m..];
  }

  /** `str::starts_with`. */
  predicate StartsWith(s: string, prefix: string) {
    |prefix| <= |s| && s[..|prefix|] == prefix
  }

  /** `pat` occurs in `s` starting at index `i`. */
  predicate OccursAt(s: string, pat: string, i: nat) {
    i + |pat| <= |s| && s[i..i + |pat|] == pat
  }

  /** The leftmost occurrence of `pat` in `s` at or after `from`, as `str::find` on `s[from..]` reports it. */
  function FindFrom(s: string, pat: string, from: nat): (r: Option<nat>)
    ensures r.Some? ==> from <= r.value && OccursAt(s, pat, r.value)
    ensures r.Some? ==> forall i: nat :: from <= i < r.value ==> !OccursAt(s, pat, i)
    ensures r.None? ==> forall i: nat :: from <= i ==> !OccursAt(s, pat, i)
    decreases |s| - from
  {
    if from + |pat| > |s| then None
    else if s[from..from + |pat|] == pat then Some(from)
    else FindFrom(s, pat, from + 1)
  }

  /** A slice of a slice is a slice of the whole. */
  lemma SliceInside(s: string, lo: nat, hi: nat, k: nat, n: nat)
    requires lo <= hi <= |s| && k + n <= hi - lo
    ensures s[lo..hi][k..k + n] == s[lo + k..lo + k + n]
  {
    var a := s[lo..hi][k..k + n];
    var b := s[lo + k..lo + k + n];
    forall m | 0 <= m < n ensures a[m] == b[m] {
      assert a[m] == s[lo..hi][k + m] == s[lo + k + m];
    }
  }

  /** The leftmost occurrence at or after `from` is the one `FindFrom` reports. */
  lemma FindFromLeftmost(s: string, pat: string, from: nat, j: nat)
    requires from <= j && OccursAt(s, pat, j)
    requires forall i: nat :: from <= i < j ==> !OccursAt(s, pat, i)
    ensures FindFrom(s, pat, from) == Some(j)
  {
  }

  /** `str::contains` with a string pattern (the empty pattern is always contained). */
  predicate Contains(s: string, pat: string) {
    FindFrom(s, pat, 0).Some?
  }

  lemma ContainsIffOccurs(s: string, pat: string)
    ensures Contains(s, pat) <==> exists i: nat :: OccursAt(s, pat, i)
  {
  }

  /** Lowercasing of one character, restricted to ASCII letters. */
  function LowerChar(c: char): char {
    if 'A' <= c <= 'Z' then (c as int + 32) as char else c
  }

  /** `str::to_lowercase`, restricted to ASCII letters. */
  function Lower(s: string): (r: string)
    ensures |r| == |s|
    ensures forall i :: 0 <= i < |s| ==> r[i] == LowerChar(s[i])
  {
    seq(|s|, i requires 0 <= i < |s| => LowerChar(s[i]))
  }

  /** Every character of `s` is `from` replaced by `to` (`str::replace` with single characters). */
  function Replace(s: string, from: char, to: char): (r: string)
    ensures |r| == |s|
    ensures from != to ==> from !in r
    ensures forall i :: 0 <= i < |s| && s[i] != from ==> r[i] == s[i]
  {
    seq(|s|, i requires 0 <= i < |s| => if s[i] == from then to else s[i])
  }

  /** A line without its `\r` when the `\n` that ended it came right after one. */
  function StripCarriageReturn(line: string): string {
    if |line| > 0 && line[|line| - 1] == '\r' then line[..|line| - 1] else line
  }

  /** `str::lines`: split at `\n` (and `\r\n`); a final line ending adds no empty line. */
  function Lines(s: string): (r: seq<string>)
    ensures r == [] <==> s == []
    decreases |s|
  {
    if s == [] then []
    else match FindFrom(s, "\n", 0)
      case None => [s]
      case Some(i) => [StripCarriageReturn(s[..i])] + Lines(s[i + 1..])
  }

  /** No line holds a line break. */
  lemma {:induction false} LinesHaveNoBreak(s: string)
    ensures forall k :: 0 <= k < |Lines(s)| ==> '\n' !in Lines(s)[k]
    decreases |s|
  {
    if s != [] {
      match FindFrom(s, "\n", 0)
      case None =>
        NoOccurrenceNoChar(s, '\n', |s|);
        assert s[..|s|] == s;
      case Some(i) =>
        NoOccurrenceNoChar(s, '\n', i);
        LinesHaveNoBreak(s[i + 1..]);
    }
  }

  /** A line ended by `\n` is the first line, without a `\r` just before the break, and the
      rest of the text gives the remaining lines; so `\r\n` ends a line as `\n` does. */
  lemma LinesCons(line: string, rest: string)
    requires '\n' !in line
    ensures Lines(line + "\n" + rest) == [StripCarriageReturn(line)] + Lines(rest)
    ensures Lines(line + "\r\n" + rest) == [line] + Lines(rest)
  {
    BreakAfterLine(line, rest);
    CrLfEndsLine(line, rest);
  }

  /** `\r\n` ends a line and leaves no `\r` on it. */
  lemma CrLfEndsLine(line: string, rest: string)
    requires '\n' !in line
    ensures Lines(line + "\r\n" + rest) == [line] + Lines(rest)
  {
    var cr := line + "\r";
    assert line + "\r\n" + rest == cr + "\n" + rest;
    BreakAfterLine(cr, rest);
    assert cr[..|line|] == line;
  }

  /** The first `\n` of `line + "\n" + rest` is the one after `line`. */
  lemma BreakAfterLine(line: string, rest: string)
    requires '\n' !in line
    ensures Lines(line + "\n" + rest) == [StripCarriageReturn(line)] + Lines(rest)
  {
    var s := line + "\n" + rest;
    assert forall i: nat :: i < |line| ==> s[i..i + 1] == [line[i]] && !OccursAt(s, "\n", i);
    assert s[|line|..|line| + 1] == "\n";
    FindFromLeftmost(s, "\n", 0, |line|);
    assert s[..|line|] == line && s[|line| + 1..] == rest;
  }

  /** A text without a line break is one line, and a final line break adds no empty line. */
  lemma FinalLineBreak(line: string)
    requires line != [] && '\n' !in line
    ensures Lines(line) == [line]
    ensures line[|line| - 1] != '\r' ==> Lines(line + "\n") == Lines(line)
  {
    OneLine(line);
    BreakAfterLine(line, "");
    assert line + "\n" + "" == line + "\n";
  }

  /** A text without a line break is a single line. */
  lemma OneLine(line: string)
    requires line != [] && '\n' !in line
    ensures Lines(line) == [line]
  {
    assert forall i: nat :: i < |line| ==> line[i..i + 1] == [line[i]] && !OccursAt(line, "\n", i);
  }

  /** The lines joined with `\n` give back a text without `\r` or a final line break. */
  lemma {:induction false} JoinLines(s: string)
    requires '\r' !in s && (s == [] || s[|s| - 1] != '\n')
    ensures Join(Lines(s), '\n') == s
    decreases |s|
  {
    if s != [] {
      match FindFrom(s, "\n", 0)
      case None =>
      case Some(i) =>
        var line, rest := s[..i], s[i + 1..];
        assert s[i..i + 1] == "\n";
        assert s == line + "\n" + rest;
        assert '\r' !in line;
        JoinLines(rest);
        var ls := Lines(rest);
        assert Lines(s) == [line] + ls && ls != [];
        assert ([line] + ls)[1..] == ls;
    }
  }

  /** A one-character pattern that occurs nowhere before `end` leaves that character out of `s[..end]`. */
  lemma NoOccurrenceNoChar(s: string, c: char, end: nat)
    requires end <= |s|
    requires forall i: nat :: i < end ==> !OccursAt(s, [c], i)
    ensures c !in s[..end]
  {
    if c in s[..end] {
      var i :| 0 <= i < end && s[..end][i] == c;
      assert s[i..i + 1] == [c];
      assert OccursAt(s, [c], i);
    }
  }

  /** `str::split` on one character: the pieces between the separators, never none. */
  function Split(s: string, sep: char): (r: seq<string>)
    ensures |r| >= 1
    ensures forall i :: 0 <= i < |r| ==> sep !in r[i]
    decreases |s|
  {
    match FindFrom(s, [sep], 0)
    case None =>
      assert forall i: nat :: i < |s| ==> !OccursAt(s, [sep], i) && s[i..i + 1] == [s[i]];
      [s]
    case Some(i) =>
      assert forall j: nat :: j < i ==> !OccursAt(s, [sep], j) && s[j..j + 1] == [s[j]];
      [s[..i]] + Split(s[i + 1..], sep)
  }

  /** `[&str]::join` with a one-character separator. */
  function Join(parts: seq<string>, sep: char): string {
    if |parts| == 0 then ""
    else if |parts| == 1 then parts[0]
    else parts[0] + [sep] + Join(parts[1..], sep)
  }

  lemma JoinThree(a: string, b: string, c: string, sep: char)
    ensures Join([a, b, c], sep) == a + [sep] + b + [sep] + c
  {
    assert [a, b, c][1..] == [b, c] && [b, c][1..] == [c];
    assert Join([c], sep) == c;
    assert Join([b, c], sep) == b + [sep] + c;
    assert Join([a, b, c], sep) == a + [sep] + (b + [sep] + c);
  }

  /** Splitting undoes joining when no piece holds the separator. */
  lemma {:induction false} SplitJoin(parts: seq<string>, sep: char)
    requires |parts| >= 1
    requires forall i :: 0 <= i < |parts| ==> sep !in parts[i]
    ensures Split(Join(parts, sep), sep) == parts
  {
    var s := Join(parts, sep);
    if |parts| == 1 {
      assert forall i: nat :: i < |s| ==> s[i..i + 1] == [s[i]] && !OccursAt(s, [sep], i);
      assert FindFrom(s, [sep], 0) == None;
    } else {
      var head := parts[0];
      assert s == head + [sep] + Join(parts[1..], sep);
      forall i: nat | i < |head| ensures !OccursAt(s, [sep], i) {
        assert s[i] == head[i];
        assert s[i..i + 1] == [head[i]];
      }
      assert OccursAt(s, [sep], |head|);
      assert FindFrom(s, [sep], 0) == Some(|head|);
      assert s[..|head|] == head;
      assert s[|head| + 1..] == Join(parts[1..], sep);
      SplitJoin(parts[1..], sep);
    }
  }

  /** The order of `String`'s `Ord`: code point by code point, a proper prefix first. */
  predicate LexLe(a: string, b: string) {
    if |a| == 0 then true
    else if |b| == 0 then false
    else if a[0] < b[0] then true
    else if a[0] > b[0] then false
    else LexLe(a[1..], b[1..])
  }

  lemma {:induction false} LexRefl(a: string)
    ensures LexLe(a, a)
  {
    if |a| > 0 { LexRefl(a[1..]); }
  }

  lemma {:induction false} LexAntisym(a: string, b: string)
    requires LexLe(a, b) && LexLe(b, a)
    ensures a == b
  {
    if |a| > 0 && |b| > 0 { LexAntisym(a[1..], b[1..]); }
  }

  lemma {:induction false} LexTotal(a: string, b: string)
    ensures LexLe(a, b) || LexLe(b, a)
  {
    if |a| > 0 && |b| > 0 && a[0] == b[0] { LexTotal(a[1..], b[1..]); }
  }

  lemma {:induction false} LexTrans(a: string, b: string, c: string)
    requires LexLe(a, b) && LexLe(b, c)
    ensures LexLe(a, c)
  {
    if |a| > 0 && |b| > 0 && |c| > 0 && a[0] == b[0] && b[0] == c[0] {
      LexTrans(a[1..], b[1..], c[1..]);
    }
  }

  lemma LexAntisymAll()
    ensures forall a, b :: LexLe(a, b) && LexLe(b, a) ==> a == b
  {
    forall a, b | LexLe(a, b) && LexLe(b, a) ensures a == b { LexAntisym(a, b); }
  }

  /** `k` is the least element of `s` in the order of `String`. */
  predicate IsLeast(k: string, s: set<string>) {
    k in s && forall j :: j in s ==> LexLe(k, j)
  }

  lemma {:induction false} LeastExists(s: set<string>)
    requires s != {}
    ensures exists k :: IsLeast(k, s)
    decreases |s|
  {
    var x :| x in s;
    LexRefl(x);
    if s == {x} {
      assert IsLeast(x, s);
    } else {
      LeastExists(s - {x});
      var k :| IsLeast(k, s - {x});
      LexTotal(k, x);
      if LexLe(k, x) {
        assert IsLeast(k, s);
      } else {
        forall j | j in s ensures LexLe(x, j) {
          if j != x { LexTrans(x, k, j); }
        }
        assert IsLeast(x, s);
      }
    }
  }

  /** The keys of a map collected and sorted (`keys().cloned().collect()` then `sort()`):
      every key exactly once, least first. */
  function SortedKeys(s: set<string>): (r: seq<string>)
    ensures |r| == |s|
    ensures forall k :: k in r <==> k in s
    decreases |s|
  {
    if s == {} then []
    else
      LeastExists(s);
      LexAntisymAll();
      var k :| IsLeast(k, s);
      [k] + SortedKeys(s - {k})
  }

  /** The sorted keys start with the least key and go on with the sorted rest. */
  lemma SortedKeysHead(s: set<string>)
    requires s != {}
    ensures |SortedKeys(s)| > 0 && IsLeast(SortedKeys(s)[0], s)
    ensures SortedKeys(s)[1..] == SortedKeys(s - {SortedKeys(s)[0]})
  {
  }

  /** The sorted keys are strictly increasing. */
  lemma {:induction false} SortedKeysIncreasing(s: set<string>)
    ensures forall i, j :: 0 <= i < j < |SortedKeys(s)| ==>
      LexLe(SortedKeys(s)[i], SortedKeys(s)[j]) && SortedKeys(s)[i] != SortedKeys(s)[j]
    decreases |s|
  {
    if s != {} {
      SortedKeysHead(s);
      var r := SortedKeys(s);
      var k := r[0];
      var rest := r[1..];
      SortedKeysIncreasing(s - {k});
      forall i, j | 0 <= i < j < |r|
        ensures LexLe(r[i], r[j]) && r[i] != r[j]
      {
        assert r[j] == rest[j - 1] && r[j] in s - {k};
        if i == 0 {
          assert r[j] in s;
        } else {
          assert r[i] == rest[i - 1];
        }
      }
    }
  }
}
