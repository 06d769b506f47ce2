/**
 * The Python string operations the status checks rely on, stated over `seq<char>`:
 * whitespace as `str.isspace` and the regular-expression class `\s` see it,
 * `split`, `join`, `strip`, `rstrip`, `endswith`, `lower`, substring search,
 * `re.split("(\s+)", ...)`, and decimal formatting and parsing of integers.
 */
module Text {
  import opened Wrappers

  /** Python's whitespace: the characters `str.isspace()` accepts, which are also those `\s` matches in a str pattern. */
  predicate IsSpace(c: char) {
    var n := c as int;
    (9 <= n <= 13) || (28 <= n <= 32) || n == 0x85 || n == 0xA0 || n == 0x1680 ||
    (0x2000 <= n <= 0x200A) || n == 0x2028 || n == 0x2029 || n == 0x202F ||
    n == 0x205F || n == 0x3000
  }

  predicate AllSpace(s: string) {
    forall i :: 0 <= i < |s| ==> IsSpace(s[i])
  }

  predicate NoSpace(s: string) {
    forall i :: 0 <= i < |s| ==> !IsSpace(s[i])
  }

  /** `w.strip() != ""`: the token holds at least one character that is not whitespace. */
  predicate HasContent(w: string) {
    exists i :: 0 <= i < |w| && !IsSpace(w[i])
  }

  /** The characters of `s` that are not whitespace, in order. */
  function NonSpace(s: string): (r: string)
    ensures NoSpace(r)
    ensures |r| <= |s|
  {
    if s == [] then []
    else (if IsSpace(s[0]) then [] else [s[0]]) + NonSpace(s[1..])
  }

  lemma {:induction false} NonSpaceAppend(a: string, b: string)
    ensures NonSpace(a + b) == NonSpace(a) + NonSpace(b)
  {
    if a == [] {
      assert a + b == b;
    } else {
      assert (a + b)[1..] == a[1..] + b;
      NonSpaceAppend(a[1..], b);
    }
  }

  lemma {:induction false} NonSpaceOfAllSpace(s: string)
    requires AllSpace(s)
    ensures NonSpace(s) == []
  {
    if s != [] {
      NonSpaceOfAllSpace(s[1..]);
    }
  }

  lemma {:induction false} NonSpaceOfNoSpace(s: string)
    requires NoSpace(s)
    ensures NonSpace(s) == s
  {
    if s != [] {
      NonSpaceOfNoSpace(s[1..]);
      assert s == [s[0]] + s[1..];
    }
  }

  lemma AppendAssoc<T>(a: seq<T>, b: seq<T>, c: seq<T>)
    ensures (a + b) + c == a + (b + c)
  {
  }

  /** No element occurs twice. */
  predicate Distinct<T(==)>(s: seq<T>) {
    forall i, j :: 0 <= i < j < |s| ==> s[i] != s[j]
  }

  /** All pieces glued together, in order. */
  function Concat(parts: seq<string>): (r: string)
    ensures parts == [] ==> r == []
  {
    if parts == [] then [] else parts[0] + Concat(parts[1..])
  }

  lemma {:induction false} ConcatAppend(parts: seq<string>, x: string)
    ensures Concat(parts + [x]) == Concat(parts) + x
  {
    if parts == [] {
      assert parts + [x] == [x];
    } else {
      assert (parts + [x])[1..] == parts[1..] + [x];
      ConcatAppend(parts[1..], x);
    }
  }

  lemma {:induction false} ConcatJoin(a: seq<string>, b: seq<string>)
    ensures Concat(a + b) == Concat(a) + Concat(b)
  {
    if a == [] {
      assert a + b == b;
    } else {
      assert (a + b)[1..] == a[1..] + b;
      ConcatJoin(a[1..], b);
    }
  }

  /** `sep.join(parts)`. */
  function Join(parts: seq<string>, sep: string): (r: string)
    ensures |parts| == 1 ==> r == parts[0]
  {
    if parts == [] then []
    else if |parts| == 1 then parts[0]
    else parts[0] + sep + Join(parts[1..], sep)
  }

  /** `s.startswith(prefix)`. */
  predicate StartsWith(s: string, prefix: string) {
    |prefix| <= |s| && s[..|prefix|] == prefix
  }

  /** `s.endswith(suffix)`. */
  predicate EndsWith(s: string, suffix: string) {
    |suffix| <= |s| && s[|s| - |suffix|..] == suffix
  }

  /** `sub in s`. */
  predicate Contains(s: string, sub: string)
    decreases |s|
  {
    StartsWith(s, sub) || (s != [] && Contains(s[1..], sub))
  }

  lemma {:induction false} ContainsAt(s: string, sub: string, i: nat)
    requires i + |sub| <= |s| && s[i..i + |sub|] == sub
    ensures Contains(s, sub)
    decreases i
  {
    if i > 0 {
      assert s[1..][i - 1..i - 1 + |sub|] == s[i..i + |sub|];
      ContainsAt(s[1..], sub, i - 1);
    }
  }

  /** Index of the first occurrence of `c` in `s`, or `|s|` when there is none. */
  function IndexOf(s: string, c: char): (k: nat)
    ensures k <= |s|
    ensures forall j :: 0 <= j < k ==> s[j] != c
    ensures k < |s| ==> s[k] == c
  {
    if s == [] then 0
    else if s[0] == c then 0
    else 1 + IndexOf(s[1..], c)
  }

  /** `s.split(c)` for a one-character separator: the pieces between the occurrences of `c`. */
  function SplitOn(s: string, c: char): (r: seq<string>)
    ensures |r| >= 1
    decreases |s|
  {
    var k := IndexOf(s, c);
    if k == |s| then [s] else [s[..k]] + SplitOn(s[k + 1..], c)
  }

  /** The pieces of `s.split(c)` hold no `c`, and joining them with `c` gives back `s`. */
  lemma {:induction false} SplitOnSpec(s: string, c: char)
    ensures forall i :: 0 <= i < |SplitOn(s, c)| ==> c !in SplitOn(s, c)[i]
    ensures Join(SplitOn(s, c), [c]) == s
    decreases |s|
  {
    var k := IndexOf(s, c);
    if k == |s| {
      assert c !in s;
    } else {
      SplitOnSpec(s[k + 1..], c);
      SplitOnUnfold(s, c, k);
      PrependPiece(s, c, k, SplitOn(s[k + 1..], c));
    }
  }

  lemma SplitOnUnfold(s: string, c: char, k: nat)
    requires k == IndexOf(s, c) < |s|
    ensures SplitOn(s, c) == [s[..k]] + SplitOn(s[k + 1..], c)
  {
  }

  /** The text before the first `c`, put in front of a split of what follows that `c`, splits `s`. */
  lemma PrependPiece(s: string, c: char, k: nat, rest: seq<string>)
    requires k < |s| && s[k] == c && c !in s[..k] && |rest| >= 1
    requires forall i :: 0 <= i < |rest| ==> c !in rest[i]
    requires Join(rest, [c]) == s[k + 1..]
    ensures forall i :: 0 <= i < |[s[..k]] + rest| ==> c !in ([s[..k]] + rest)[i]
    ensures Join([s[..k]] + rest, [c]) == s
  {
    var r := [s[..k]] + rest;
    forall i | 0 <= i < |r|
      ensures c !in r[i]
    {
      if i > 0 {
        assert r[i] == rest[i - 1];
      }
    }
    assert r[1..] == rest;
    assert s == s[..k] + [c] + s[k + 1..];
  }

  /** The part of `s` before the first occurrence of `sep`, which is `s.split(sep)[0]`; all of `s` when `sep` does not occur. */
  function BeforeFirst(s: string, sep: string): (r: string)
    requires sep != []
    ensures StartsWith(s, r)
    ensures !Contains(r, sep)
    ensures r != s ==> StartsWith(s[|r|..], sep)
    decreases |s|
  {
    if StartsWith(s, sep) then []
    else if s == [] then []
    else
      var rest := BeforeFirst(s[1..], sep);
      assert [s[0]] + rest == s[..1 + |rest|];
      assert ([s[0]] + rest)[1..] == rest;
      [s[0]] + rest
  }

  /** `s.rstrip(c)`: `s` without its trailing run of `c`. */
  function RStrip(s: string, c: char): (r: string)
    ensures StartsWith(s, r)
    ensures r == [] || r[|r| - 1] != c
    ensures forall i :: |r| <= i < |s| ==> s[i] == c
  {
    if s == [] || s[|s| - 1] != c then s
    else RStrip(s[..|s| - 1], c)
  }

  /** Length of the leading run of whitespace. */
  function LeadingSpace(s: string): (n: nat)
    ensures n <= |s|
    ensures AllSpace(s[..n])
    ensures n < |s| ==> !IsSpace(s[n])
  {
    if s == [] || !IsSpace(s[0]) then 0 else 1 + LeadingSpace(s[1..])
  }

  /** Length of the trailing run of whitespace. */
  function TrailingSpace(s: string): (n: nat)
    ensures n <= |s|
    ensures AllSpace(s[|s| - n..])
    ensures n < |s| ==> !IsSpace(s[|s| - n - 1])
  {
    if s == [] || !IsSpace(s[|s| - 1]) then 0
    else
      var m := TrailingSpace(s[..|s| - 1]);
      TrailingRunGrows(s, m);
      1 + m
  }

  lemma TrailingRunGrows(s: string, m: nat)
    requires m < |s| && IsSpace(s[|s| - 1]) && AllSpace(s[..|s| - 1][|s| - 1 - m..])
    ensures AllSpace(s[|s| - (m + 1)..])
  {
    forall k | |s| - (m + 1) <= k < |s|
      ensures IsSpace(s[k])
    {
      if k < |s| - 1 {
        assert s[k] == s[..|s| - 1][|s| - 1 - m..][k - (|s| - 1 - m)];
      }
    }
  }

  /** `s.strip()`: `s` without leading and trailing whitespace. */
  function Strip(s: string): (r: string)
    ensures r == [] || (!IsSpace(r[0]) && !IsSpace(r[|r| - 1]))
    ensures |r| <= |s|
  {
    var i := LeadingSpace(s);
    var t := s[i..];
    var n := TrailingSpace(t);
    assert t[|t| - n..] == s[i + |t| - n..];
    s[i..i + |t| - n]
  }

  /** `s.strip() == ""` exactly when `s` is all whitespace. */
  lemma StripBlank(s: string)
    ensures Strip(s) == [] <==> AllSpace(s)
  {
    var i := LeadingSpace(s);
    var t := s[i..];
    var n := TrailingSpace(t);
    assert |Strip(s)| == |t| - n;
    if n == |t| {
      assert AllSpace(t) by {
        assert t[|t| - n..] == t;
      }
      assert s[..i] == s;
    } else {
      assert t[0] == s[i];
    }
  }

  /** Length of the leading run of non-whitespace characters. */
  function LeadingNonSpace(s: string): (n: nat)
    ensures n <= |s|
    ensures NoSpace(s[..n])
    ensures n < |s| ==> IsSpace(s[n])
  {
    if s == [] || IsSpace(s[0]) then 0 else 1 + LeadingNonSpace(s[1..])
  }

  /**
   * The shape of a `re.split("(\s+)", s)` result: a piece without whitespace, then any number
   * of (non-empty whitespace run, piece without whitespace) pairs.
   */
  predicate Alternates(r: seq<string>)
    decreases |r|
  {
    |r| >= 1 && NoSpace(r[0]) &&
    (|r| == 1 || (|r| >= 3 && r[1] != [] && AllSpace(r[1]) && Alternates(r[2..])))
  }

  /**
   * `re.split("(\s+)", s)`: the text pieces alternate with the (captured) whitespace runs
   * that separate them; the pieces at either end may be empty.
   */
  function SplitSpaceRuns(s: string): (r: seq<string>)
    ensures |r| >= 1
    decreases |s|
  {
    var a := LeadingNonSpace(s);
    if a == |s| then [s]
    else
      var b := a + LeadingSpace(s[a..]);
      [s[..a], s[a..b]] + SplitSpaceRuns(s[b..])
  }

  /** The pieces of `re.split("(\s+)", s)` alternate between text and whitespace runs and glue back into `s`. */
  lemma {:induction false} SplitSpaceRunsSpec(s: string)
    ensures Alternates(SplitSpaceRuns(s))
    ensures Concat(SplitSpaceRuns(s)) == s
    decreases |s|
  {
    var a := LeadingNonSpace(s);
    if a == |s| {
      assert s[..a] == s;
    } else {
      var b := SplitSpaceRunsUnfold(s);
      SplitSpaceRunsSpec(s[b..]);
      PrependRun(s, a, b, SplitSpaceRuns(s[b..]));
    }
  }

  /** When `s` holds whitespace, its split is the text before the first run, that run, and the split of the rest. */
  lemma SplitSpaceRunsUnfold(s: string) returns (b: nat)
    requires LeadingNonSpace(s) < |s|
    ensures var a := LeadingNonSpace(s);
      && a < b <= |s| && NoSpace(s[..a]) && AllSpace(s[a..b])
      && SplitSpaceRuns(s) == [s[..a], s[a..b]] + SplitSpaceRuns(s[b..])
  {
    var a := LeadingNonSpace(s);
    b := a + LeadingSpace(s[a..]);
    FirstRun(s, a, b);
    var r := SplitSpaceRuns(s);
    var rest := SplitSpaceRuns(s[b..]);
    assert r == [s[..a], s[a..b]] + rest by {
      assert |r| == 2 + |rest|;
      assert r[0] == s[..a] && r[1] == s[a..b] && r[2..] == rest;
    }
  }

  lemma FirstRun(s: string, a: nat, b: nat)
    requires a == LeadingNonSpace(s) < |s| && b == a + LeadingSpace(s[a..])
    ensures a < b <= |s| && NoSpace(s[..a]) && AllSpace(s[a..b])
  {
    var t := s[a..];
    var n := LeadingSpace(t);
    assert t[0] == s[a] && IsSpace(t[0]);
    LeadingSpaceOfSpace(t);
    SliceOfSlice(s, a, b);
    assert t[..n] == s[a..b];
    assert AllSpace(t[..n]);
  }

  lemma LeadingSpaceOfSpace(t: string)
    requires t != [] && IsSpace(t[0])
    ensures LeadingSpace(t) >= 1
  {
  }

  lemma SliceOfSlice(s: string, a: nat, b: nat)
    requires a <= b <= |s|
    ensures s[a..][..b - a] == s[a..b]
  {
  }

  /** The text before position `a` and the whitespace run up to `b`, put in front of a split of `s[b..]`, split `s`. */
  lemma PrependRun(s: string, a: nat, b: nat, rest: seq<string>)
    requires a < b <= |s| && NoSpace(s[..a]) && AllSpace(s[a..b])
    requires Alternates(rest) && Concat(rest) == s[b..]
    ensures Alternates([s[..a], s[a..b]] + rest)
    ensures Concat([s[..a], s[a..b]] + rest) == s
  {
    var r := [s[..a], s[a..b]] + rest;
    ConcatPrependTwo(s[..a], s[a..b], rest);
    assert s == s[..a] + s[a..b] + s[b..];
    assert r[0] == s[..a] && r[1] == s[a..b] && r[2..] == rest;
  }

  lemma ConcatPrependTwo(x: string, y: string, rest: seq<string>)
    ensures Concat([x, y] + rest) == x + y + Concat(rest)
  {
    var r := [x, y] + rest;
    assert r[1..] == [y] + rest;
    assert r[1..][1..] == rest;
  }

  /** `s.split()`: the maximal runs of non-whitespace characters, in order. */
  function Words(s: string): (r: seq<string>)
    ensures forall i :: 0 <= i < |r| ==> r[i] != [] && NoSpace(r[i])
    ensures Concat(r) == NonSpace(s)
    decreases |s|
  {
    var i := LeadingSpace(s);
    if i == |s| then
      NonSpaceOfAllSpace(s);
      []
    else
      var n := LeadingNonSpace(s[i..]);
      var rest := Words(s[i..][n..]);
      PrependWord(s, i, n, rest);
      [s[i..][..n]] + rest
  }

  /** The first word of `s`, put in front of the words of what follows it, gives the words of `s`. */
  lemma PrependWord(s: string, i: nat, n: nat, rest: seq<string>)
    requires i < |s| && i == LeadingSpace(s) && n == LeadingNonSpace(s[i..])
    requires forall k :: 0 <= k < |rest| ==> rest[k] != [] && NoSpace(rest[k])
    requires Concat(rest) == NonSpace(s[i..][n..])
    ensures var r := [s[i..][..n]] + rest;
      && (forall k :: 0 <= k < |r| ==> r[k] != [] && NoSpace(r[k]))
      && Concat(r) == NonSpace(s)
  {
    var t := s[i..];
    var r := [t[..n]] + rest;
    assert t[0] == s[i];
    forall k | 0 <= k < |r|
      ensures r[k] != [] && NoSpace(r[k])
    {
      if k > 0 {
        assert r[k] == rest[k - 1];
      }
    }
    FirstWordText(s, i, n, rest);
  }

  lemma FirstWordText(s: string, i: nat, n: nat, rest: seq<string>)
    requires i <= |s| && AllSpace(s[..i]) && n <= |s| - i && NoSpace(s[i..][..n])
    requires Concat(rest) == NonSpace(s[i..][n..])
    ensures Concat([s[i..][..n]] + rest) == NonSpace(s)
  {
    var t := s[i..];
    var r := [t[..n]] + rest;
    assert r[1..] == rest;
    assert Concat(r) == t[..n] + Concat(rest);
    NonSpaceOfAllSpace(s[..i]);
    NonSpaceOfNoSpace(t[..n]);
    assert t == t[..n] + t[n..];
    assert s == s[..i] + t;
    NonSpaceAppend(t[..n], t[n..]);
    NonSpaceAppend(s[..i], t);
  }

  /** `s` ends inside a word: a visible character appended to it would extend that word. */
  predicate EndsInWord(s: string) {
    s != [] && !IsSpace(s[|s| - 1])
  }

  /** `s` starts inside a word. */
  predicate StartsInWord(s: string) {
    s != [] && !IsSpace(s[0])
  }

  lemma LeadingSpaceIs(s: string, m: nat)
    requires m <= |s| && AllSpace(s[..m]) && (m < |s| ==> !IsSpace(s[m]))
    ensures LeadingSpace(s) == m
  {
    var n := LeadingSpace(s);
    forall k | 0 <= k < m
      ensures IsSpace(s[k])
    {
      assert s[..m][k] == s[k];
    }
    forall k | 0 <= k < n
      ensures IsSpace(s[k])
    {
      assert s[..n][k] == s[k];
    }
  }

  lemma LeadingNonSpaceIs(s: string, m: nat)
    requires m <= |s| && NoSpace(s[..m]) && (m < |s| ==> IsSpace(s[m]))
    ensures LeadingNonSpace(s) == m
  {
    var n := LeadingNonSpace(s);
    forall k | 0 <= k < m
      ensures !IsSpace(s[k])
    {
      assert s[..m][k] == s[k];
    }
    forall k | 0 <= k < n
      ensures !IsSpace(s[k])
    {
      assert s[..n][k] == s[k];
    }
  }

  lemma WordsOfBlank(s: string)
    requires AllSpace(s)
    ensures Words(s) == []
  {
    assert s[..|s|] == s;
    LeadingSpaceIs(s, |s|);
  }

  lemma WordsOfWord(w: string)
    requires w != [] && NoSpace(w)
    ensures Words(w) == [w]
  {
    LeadingSpaceIs(w, 0);
    assert w[0..] == w && w[..|w|] == w;
    LeadingNonSpaceIs(w, |w|);
    WordsOfBlank(w[|w|..]);
  }

  /** One step of `split()`: the first word, then the words of what follows it. */
  lemma WordsUnfold(s: string, i: nat, n: nat)
    requires i == LeadingSpace(s) < |s| && n == LeadingNonSpace(s[i..])
    ensures Words(s) == [s[i..][..n]] + Words(s[i..][n..])
  {
  }

  /** `split()` ignores leading whitespace. */
  lemma WordsSkip(s: string)
    ensures Words(s) == Words(s[LeadingSpace(s)..])
  {
    var i := LeadingSpace(s);
    var u := s[i..];
    assert u[..0] == [];
    LeadingSpaceIs(u, 0);
    if i == |s| {
      WordsOfBlank([]);
    } else {
      var n := LeadingNonSpace(u);
      assert u[0..] == u;
      WordsUnfold(s, i, n);
      WordsUnfold(u, 0, n);
    }
  }

  lemma LeadingSpaceAfterBlank(a: string, b: string)
    requires AllSpace(a)
    ensures LeadingSpace(a + b) == |a| + LeadingSpace(b)
    ensures (a + b)[|a| + LeadingSpace(b)..] == b[LeadingSpace(b)..]
  {
    var s := a + b;
    var j := LeadingSpace(b);
    var k := |a| + j;
    assert s[..k] == a + b[..j];
    assert k < |s| ==> s[k] == b[j];
    LeadingSpaceIs(s, k);
  }

  lemma WordsAfterBlank(a: string, b: string)
    requires AllSpace(a)
    ensures Words(a + b) == Words(b)
  {
    var u := b[LeadingSpace(b)..];
    LeadingSpaceAfterBlank(a, b);
    assert (a + b)[LeadingSpace(a + b)..] == u;
    WordsSkip(a + b);
    WordsSkip(b);
  }



  /**
   * `split()` of a concatenation is the concatenation of the splits when no word runs
   * across the seam: the left part does not end inside a word, or the right part does
   * not start inside one.
   */
  lemma {:induction false} WordsAppend(a: string, b: string)
    requires !EndsInWord(a) || !StartsInWord(b)
    ensures Words(a + b) == Words(a) + Words(b)
    decreases |a|
  {
    if LeadingSpace(a) == |a| {
      WordsAppendBlank(a, b);
    } else {
      var p, w, r := SplitFirstWord(a);
      WordsAppend(r, b);
      WordsAppendAfterWord(p, w, r, b);
    }
  }

  /** `a` as its leading whitespace, its first word, and the rest, which ends as `a` does. */
  lemma SplitFirstWord(a: string) returns (p: string, w: string, r: string)
    requires LeadingSpace(a) < |a|
    ensures a == p + w + r && AllSpace(p) && w != [] && NoSpace(w) && !StartsInWord(r)
    ensures |r| < |a| && (r == [] ==> EndsInWord(a)) && (r != [] ==> EndsInWord(r) == EndsInWord(a))
  {
    var i := LeadingSpace(a);
    var n := LeadingNonSpace(a[i..]);
    p, w, r := a[..i], a[i..][..n], a[i..][n..];
    FirstWordParts(a, i, n);
    Recompose(a, i, n);
    EndsLikeRest(a, p, w, r);
  }

  lemma FirstWordParts(a: string, i: nat, n: nat)
    requires i == LeadingSpace(a) < |a| && n == LeadingNonSpace(a[i..])
    ensures AllSpace(a[..i]) && a[i..][..n] != [] && NoSpace(a[i..][..n]) && !StartsInWord(a[i..][n..])
  {
    FirstWordStarts(a, i);
    WordEndsAtSpace(a[i..], n);
  }

  lemma Recompose(a: string, i: nat, n: nat)
    requires i <= |a| && n <= |a| - i
    ensures a == a[..i] + a[i..][..n] + a[i..][n..]
  {
    assert a == a[..i] + a[i..] && a[i..] == a[i..][..n] + a[i..][n..];
    AppendAssoc(a[..i], a[i..][..n], a[i..][n..]);
  }


  lemma FirstWordStarts(a: string, i: nat)
    requires i == LeadingSpace(a) < |a|
    ensures LeadingNonSpace(a[i..]) >= 1
  {
    assert a[i..][0] == a[i];
  }

  lemma WordEndsAtSpace(t: string, n: nat)
    requires n == LeadingNonSpace(t)
    ensures !StartsInWord(t[n..])
  {
    if n < |t| {
      assert t[n..][0] == t[n];
    }
  }


  lemma EndsLikeRest(a: string, p: string, w: string, r: string)
    requires a == p + w + r && w != [] && NoSpace(w)
    ensures (r == [] ==> EndsInWord(a)) && (r != [] ==> EndsInWord(r) == EndsInWord(a))
  {
    if r == [] {
      assert a[|a| - 1] == w[|w| - 1];
    } else {
      assert a[|a| - 1] == r[|r| - 1];
    }
  }


  /** The first word `w` is closed by `r`: it leads the words of `p + w + r` and of `p + w + r + b`. */
  lemma WordsAppendAfterWord(p: string, w: string, r: string, b: string)
    requires AllSpace(p) && w != [] && NoSpace(w) && !StartsInWord(r)
    requires r == [] ==> !StartsInWord(b)
    requires Words(r + b) == Words(r) + Words(b)
    ensures Words(p + w + r + b) == Words(p + w + r) + Words(b)
  {
    WordsLeadAppend(p, w, r, b);
    WordsLead(p, w, r);
    AppendAssoc([w], Words(r), Words(b));
  }

  lemma WordsLeadAppend(p: string, w: string, r: string, b: string)
    requires AllSpace(p) && w != [] && NoSpace(w) && !StartsInWord(r)
    requires r == [] ==> !StartsInWord(b)
    ensures Words(p + w + r + b) == [w] + Words(r + b)
  {
    assert p + w + r + b == p + w + (r + b);
    assert r != [] ==> (r + b)[0] == r[0];
    assert r == [] ==> r + b == b;
    WordsLead(p, w, r + b);
  }




  lemma WordsAppendBlank(a: string, b: string)
    requires LeadingSpace(a) == |a|
    ensures Words(a + b) == Words(a) + Words(b)
  {
    assert a[..|a|] == a;
    WordsOfBlank(a);
    WordsAfterBlank(a, b);
  }



  lemma LeadingWord(p: string, w: string, b: string)
    requires AllSpace(p) && w != [] && NoSpace(w) && !StartsInWord(b)
    ensures var s := p + w + b;
      LeadingSpace(s) == |p| < |s| && LeadingNonSpace(s[|p|..]) == |w| &&
      s[|p|..][..|w|] == w && s[|p|..][|w|..] == b
  {
    var s := p + w + b;
    assert s[..|p|] == p;
    assert s[|p|] == w[0];
    LeadingSpaceIs(s, |p|);
    var u := s[|p|..];
    assert u == w + b;
    assert u[..|w|] == w;
    assert |w| < |u| ==> u[|w|] == b[0];
    LeadingNonSpaceIs(u, |w|);
    assert u[|w|..] == b;
  }

  /** Leading whitespace, then a word that whitespace or the end closes: that word comes first. */
  lemma WordsLead(p: string, w: string, b: string)
    requires AllSpace(p) && w != [] && NoSpace(w) && !StartsInWord(b)
    ensures Words(p + w + b) == [w] + Words(b)
  {
    LeadingWord(p, w, b);
    WordsUnfold(p + w + b, |p|, |w|);
  }



  /**
   * Appending a token to two texts with the same words: a whitespace run, or a piece without
   * whitespace after a text that does not end inside a word, keeps their words equal.
   */
  lemma WordsAppendAlike(x: string, t: string, w: string)
    requires Words(x) == Words(t) && (EndsInWord(x) ==> EndsInWord(t))
    requires (w != [] && AllSpace(w)) || (NoSpace(w) && !EndsInWord(t))
    ensures Words(x + w) == Words(t + w) && EndsInWord(x + w) == EndsInWord(t + w)
  {
    if w == [] {
      assert x + w == x && t + w == t;
    } else {
      WordsAppend(x, w);
      WordsAppend(t, w);
    }
  }

  /** Whitespace after a text adds no word and leaves it not ending inside one. */
  lemma WordsAppendBlank2(x: string, y: string)
    requires y != [] && AllSpace(y)
    ensures Words(x + y) == Words(x) && !EndsInWord(x + y)
  {
    assert (x + y)[|x + y| - 1] == y[|y| - 1];
    assert !StartsInWord(y);
    WordsAppend(x, y);
    WordsOfBlank(y);
  }

  /** Dropping a blank token after a text that does not end inside a word keeps the words. */
  lemma WordsDropBlank(x: string, t: string, w: string)
    requires Words(x) == Words(t) && !EndsInWord(x)
    requires AllSpace(w) && (w != [] || !EndsInWord(t))
    ensures Words(x) == Words(t + w) && EndsInWord(x) == EndsInWord(t + w)
  {
    if w == [] {
      assert t + w == t;
    } else {
      WordsAppend(t, w);
      WordsOfBlank(w);
    }
  }

  /** Text framed by a first part that does not end inside a word and a closing newline. */
  lemma WordsFramed(f: string, x: string)
    requires !EndsInWord(f)
    ensures Words(f + x + "\n") == Words(f) + Words(x)
  {
    WordsAppend(f, x);
    WordsAppend(f + x, "\n");
    WordsOfBlank("\n");
  }

  /** A visible character before a string that starts inside a word joins that word. */
  lemma WordsJoinChar(c: char, x: string)
    requires !IsSpace(c) && StartsInWord(x)
    ensures Words(x) != [] && Words([c] + x) == [[c] + Words(x)[0]] + Words(x)[1..]
  {
    var s := [c] + x;
    LeadingSpaceIs(s, 0);
    LeadingSpaceIs(x, 0);
    assert s[0..] == s && x[0..] == x;
    var n := LeadingNonSpace(x);
    assert s[..n + 1] == [c] + x[..n];
    if n < |x| {
      assert s[n + 1] == x[n];
    }
    LeadingNonSpaceIs(s, n + 1);
    assert s[n + 1..] == x[n..];
  }

  /** The words of `[c] + x` depend only on the words of `x` and on whether `x` starts inside a word. */
  lemma WordsPrepend(c: char, x: string, y: string)
    requires Words(x) == Words(y) && StartsInWord(x) == StartsInWord(y)
    ensures Words([c] + x) == Words([c] + y)
  {
    if !IsSpace(c) && StartsInWord(x) {
      WordsJoinChar(c, x);
      WordsJoinChar(c, y);
    } else {
      WordsAppend([c], x);
      WordsAppend([c], y);
    }
  }

  function LowerChar(c: char): (d: char)
  {
    if 'A' <= c <= 'Z' then (c as int - 'A' as int + 'a' as int) as char else c
  }

  /** `s.lower()` on ASCII letters. */
  function Lower(s: string): (r: string)
    ensures |r| == |s|
    ensures forall i :: 0 <= i < |s| ==> r[i] == LowerChar(s[i])
  {
    if s == [] then [] else [LowerChar(s[0])] + Lower(s[1..])
  }

  lemma LowerIdempotent(s: string)
    ensures Lower(Lower(s)) == Lower(s)
  {
  }

  function DigitChar(d: nat): (c: char)
    requires d < 10
    ensures '0' <= c <= '9'
  {
    ('0' as int + d) as char
  }

  predicate IsDigit(c: char) {
    '0' <= c <= '9'
  }

  /** Decimal digits of a natural number, most significant first, no leading zero. */
  function NatToString(n: nat): (r: string)
    ensures r != []
    ensures forall i :: 0 <= i < |r| ==> IsDigit(r[i])
    ensures |r| > 1 ==> r[0] != '0'
  {
    if n < 10 then [DigitChar(n)] else NatToString(n / 10) + [DigitChar(n % 10)]
  }

  /** `"%d" % n`. */
  function IntToString(n: int): (r: string)
  {
    if n < 0 then "-" + NatToString(-n) else NatToString(n)
  }

  /** The value of one decimal digit. */
  function DigitValue(c: char): (d: nat)
    requires IsDigit(c)
    ensures d < 10
  {
    c as int - '0' as int
  }

  /** The value of a string of decimal digits. */
  function DigitsValue(s: string): (v: nat)
    requires forall i :: 0 <= i < |s| ==> IsDigit(s[i])
  {
    if s == [] then 0 else 10 * DigitsValue(s[..|s| - 1]) + DigitValue(s[|s| - 1])
  }

  /** `int(s)` on a token: an optional sign followed by at least one decimal digit; anything else raises `ValueError`. */
  function ParseInt(s: string): (r: Result<int>)
    ensures r.Ok? ==> s != [] && (IsDigit(s[0]) || s[0] == '-' || s[0] == '+')
  {
    var neg := s != [] && s[0] == '-';
    var body := if s != [] && (s[0] == '-' || s[0] == '+') then s[1..] else s;
    if body != [] && forall i :: 0 <= i < |body| ==> IsDigit(body[i]) then
      var v: int := DigitsValue(body);
      Ok(if neg then -v else v)
    else Err(ValueError)
  }

  lemma {:induction false} NatToStringRoundTrip(n: nat)
    ensures DigitsValue(NatToString(n)) == n
  {
    if n >= 10 {
      NatToStringRoundTrip(n / 10);
      var s := NatToString(n);
      assert s[..|s| - 1] == NatToString(n / 10);
    }
  }

  /** Formatting with `%d` and parsing with `int` are inverse. */
  lemma IntRoundTrip(n: int)
    ensures ParseInt(IntToString(n)) == Ok(n)
  {
    if n < 0 {
      var d := NatToString(-n);
      NatToStringRoundTrip(-n);
      ParseSigned(d, '-');
    } else {
      NatToStringRoundTrip(n);
      ParseUnsigned(NatToString(n));
    }
  }

  lemma ParseUnsigned(d: string)
    requires d != [] && forall i :: 0 <= i < |d| ==> IsDigit(d[i])
    ensures ParseInt(d) == Ok(DigitsValue(d))
  {
  }

  lemma ParseSigned(d: string, sign: char)
    requires sign == '-' || sign == '+'
    requires d != [] && forall i :: 0 <= i < |d| ==> IsDigit(d[i])
    ensures ParseInt([sign] + d) == Ok(if sign == '-' then -(DigitsValue(d) as int) else DigitsValue(d))
  {
    assert ([sign] + d)[1..] == d;
  }
}
