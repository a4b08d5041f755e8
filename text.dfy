/** Python string operations the pipeline relies on: `strip`, `split`, `lower`,
    `upper`, `endswith`, `" ".join` and the `normalize_text` helper built from them. */
module Text {

  /** Python's `str.isspace` for one character (the characters `split()` and
      `strip()` treat as whitespace). */
  predicate IsSpace(c: char)
  {
    var n := c as int;
    (9 <= n <= 13) || (28 <= n <= 32) || n == 0x85 || n == 0xA0 || n == 0x1680
    || (0x2000 <= n <= 0x200A) || n == 0x2028 || n == 0x2029 || n == 0x202F
    || n == 0x205F || n == 0x3000
  }

  predicate NoSpace(s: string)
  {
    forall i :: 0 <= i < |s| ==> !IsSpace(s[i])
  }

  /** ASCII case mapping of `str.lower` and `str.upper`. */
  function LowerChar(c: char): (r: char)
    ensures IsSpace(r) == IsSpace(c)
    ensures !('A' <= r <= 'Z')
  {
    if 'A' <= c <= 'Z' then (c as int + 32) as char else c
  }

  function UpperChar(c: char): char
  {
    if 'a' <= c <= 'z' then (c as int - 32) as char else c
  }

  function Lower(s: string): (r: string)
    ensures |r| == |s|
    ensures forall i :: 0 <= i < |s| ==> r[i] == LowerChar(s[i])
  {
    seq(|s|, i requires 0 <= i < |s| => LowerChar(s[i]))
  }

  function Upper(s: string): (r: string)
    ensures |r| == |s|
    ensures forall i :: 0 <= i < |s| ==> r[i] == UpperChar(s[i])
  {
    seq(|s|, i requires 0 <= i < |s| => UpperChar(s[i]))
  }

  /** `str.strip`, `str.upper` and "is not blank" as values, for mapping and
      filtering lists of strings. */
  function StripOf(): string -> string
  {
    s => Strip(s)
  }

  function UpperOf(): string -> string
  {
    s => Upper(s)
  }

  function NonEmptyOf(): string -> bool
  {
    s => s != ""
  }

  predicate IsLower(s: string)
  {
    forall i :: 0 <= i < |s| ==> LowerChar(s[i]) == s[i]
  }

  /** The index of the first non-whitespace character at or after `i`. */
  function SkipSpaces(s: string, i: nat): (j: nat)
    requires i <= |s|
    ensures i <= j <= |s|
    ensures forall k :: i <= k < j ==> IsSpace(s[k])
    ensures j < |s| ==> !IsSpace(s[j])
    decreases |s| - i
  {
    if i < |s| && IsSpace(s[i]) then SkipSpaces(s, i + 1) else i
  }

  /** The end of `s[lo..j]` once its trailing whitespace is dropped. */
  function DropTrailing(s: string, lo: nat, j: nat): (e: nat)
    requires lo <= j <= |s|
    ensures lo <= e <= j
    ensures forall k :: e <= k < j ==> IsSpace(s[k])
    ensures e > lo ==> !IsSpace(s[e - 1])
    decreases j
  {
    if j > lo && IsSpace(s[j - 1]) then DropTrailing(s, lo, j - 1) else j
  }

  /** Where `str.strip()` starts: the length of the leading whitespace. */
  function StripStart(s: string): (i: nat)
    ensures i <= |s|
    ensures forall k :: 0 <= k < i ==> IsSpace(s[k])
    ensures i < |s| ==> !IsSpace(s[i])
  {
    SkipSpaces(s, 0)
  }

  /** `str.strip()`: the result is the middle of `s` once the whitespace on
      either side is removed, and it neither starts nor ends with whitespace. */
  function Strip(s: string): (r: string)
    ensures r == [] || (!IsSpace(r[0]) && !IsSpace(r[|r| - 1]))
    ensures var i := StripStart(s);
      && i + |r| <= |s| && r == s[i..i + |r|]
      && (forall k :: 0 <= k < i ==> IsSpace(s[k]))
      && (forall k :: i + |r| <= k < |s| ==> IsSpace(s[k]))
  {
    var i := StripStart(s);
    s[i..DropTrailing(s, i, |s|)]
  }

  /** A string without surrounding whitespace is its own strip. */
  lemma {:induction false} StripFixed(s: string)
    requires s == [] || (!IsSpace(s[0]) && !IsSpace(s[|s| - 1]))
    ensures Strip(s) == s
  {
  }

  /** Every character of the strip comes from the string. */
  lemma {:induction false} StripChars(s: string)
    ensures forall c :: c in Strip(s) ==> c in s
  {
    var r := Strip(s);
    var i := StripStart(s);
    forall c | c in r ensures c in s {
      var k :| 0 <= k < |r| && r[k] == c;
      assert s[i + k] == c;
    }
  }

  /** Stripping keeps a tail that starts and ends with non-whitespace. */
  lemma {:induction false} StripKeepsTail(s: string, n: nat)
    requires 0 < n <= |s|
    requires !IsSpace(s[|s| - 1]) && !IsSpace(s[|s| - n])
    ensures |Strip(s)| >= n && Strip(s)[|Strip(s)| - n..] == s[|s| - n..]
  {
    var r := Strip(s);
    var i := StripStart(s);
    if i + |r| < |s| {
      assert false;
    }
    if i > |s| - n {
      assert false;
    }
  }

  lemma {:induction false} StripIdempotent(s: string)
    ensures Strip(Strip(s)) == Strip(s)
  {
    StripFixed(Strip(s));
  }

  /** `s.endswith(suffix)`. */
  predicate EndsWith(s: string, suffix: string)
  {
    |suffix| <= |s| && s[|s| - |suffix|..] == suffix
  }

  /** Length of the leading run of non-whitespace characters. */
  function RunLen(s: string): (n: nat)
    ensures n <= |s|
    ensures forall i :: 0 <= i < n ==> !IsSpace(s[i])
    ensures n < |s| ==> IsSpace(s[n])
  {
    if s == [] || IsSpace(s[0]) then 0 else 1 + RunLen(s[1..])
  }

  /** `s.split()` with no separator: the maximal runs of non-whitespace. */
  function Words(s: string): (ws: seq<string>)
    ensures forall i :: 0 <= i < |ws| ==> ws[i] != [] && NoSpace(ws[i])
    ensures forall i, k :: 0 <= i < |ws| && 0 <= k < |ws[i]| ==> ws[i][k] in s
    decreases |s|
  {
    if s == [] then []
    else if IsSpace(s[0]) then
      var ws := Words(s[1..]);
      assert forall c :: c in s[1..] ==> c in s;
      ws
    else
      var n := RunLen(s);
      var ws := Words(s[n..]);
      assert forall c :: c in s[n..] ==> c in s;
      assert forall k :: 0 <= k < n ==> s[..n][k] in s;
      [s[..n]] + ws
  }

  /** `" ".join(ws)`. */
  function JoinSpace(ws: seq<string>): string
  {
    if ws == [] then []
    else if |ws| == 1 then ws[0]
    else ws[0] + " " + JoinSpace(ws[1..])
  }

  /** The text of `normalize_text` results: words of lower-case non-whitespace
      characters separated by exactly one ' '. */
  predicate Normalized(s: string)
  {
    && (s == [] || (!IsSpace(s[0]) && !IsSpace(s[|s| - 1])))
    && IsLower(s)
    && forall i :: 0 <= i < |s| && IsSpace(s[i]) ==> s[i] == ' ' && i + 1 < |s| && !IsSpace(s[i + 1])
  }

  predicate GoodWords(ws: seq<string>)
  {
    forall i :: 0 <= i < |ws| ==> ws[i] != [] && NoSpace(ws[i]) && IsLower(ws[i])
  }

  lemma {:induction false} JoinSpaceNormalized(ws: seq<string>)
    requires GoodWords(ws)
    ensures Normalized(JoinSpace(ws))
  {
    if |ws| > 1 {
      var rest := JoinSpace(ws[1..]);
      JoinSpaceNormalized(ws[1..]);
      assert rest != [] by { JoinSpaceNonEmpty(ws[1..]); }
      var s := ws[0] + " " + rest;
      assert s == JoinSpace(ws);
      assert forall i :: 0 <= i < |ws[0]| ==> s[i] == ws[0][i];
      assert forall i :: |ws[0]| < i < |s| ==> s[i] == rest[i - |ws[0]| - 1];
    }
  }

  lemma {:induction false} JoinSpaceNonEmpty(ws: seq<string>)
    requires |ws| > 0 && ws[0] != []
    ensures JoinSpace(ws) != []
  {
  }

  lemma {:induction false} RunLenPrefix(w: string, t: string)
    requires NoSpace(w)
    requires t == [] || IsSpace(t[0])
    ensures RunLen(w + t) == |w|
    decreases |w|
  {
    if w != [] {
      assert (w + t)[1..] == w[1..] + t;
      RunLenPrefix(w[1..], t);
    }
  }

  /** A single word splits to itself. */
  lemma {:induction false} WordsOfWord(w: string)
    requires w != [] && NoSpace(w)
    ensures Words(w) == [w]
  {
    RunLenPrefix(w, []);
    assert w + [] == w;
    assert w[|w|..] == [];
  }

  /** A word, one space and a rest split to the word and the rest's words. */
  lemma {:induction false} WordsOfWordSpace(w: string, rest: string)
    requires w != [] && NoSpace(w)
    ensures Words(w + " " + rest) == [w] + Words(rest)
  {
    var s := w + " " + rest;
    assert s == w + (" " + rest);
    RunLenPrefix(w, " " + rest);
    assert s[|w|] == ' ' && s[..|w|] == w && s[|w| + 1..] == rest;
    WordsStep(s, |w|);
  }

  /** Splitting a space-joined list of words gives the words back. */
  lemma {:induction false} WordsOfJoin(ws: seq<string>)
    requires forall i :: 0 <= i < |ws| ==> ws[i] != [] && NoSpace(ws[i])
    ensures Words(JoinSpace(ws)) == ws
  {
    if |ws| == 1 {
      WordsOfWord(ws[0]);
    } else if |ws| > 1 {
      var tail := ws[1..];
      assert JoinSpace(ws) == ws[0] + " " + JoinSpace(tail);
      forall i | 0 <= i < |tail| ensures tail[i] != [] && NoSpace(tail[i]) {
        assert tail[i] == ws[i + 1];
      }
      WordsOfJoin(tail);
      WordsOfWordSpace(ws[0], JoinSpace(tail));
      assert ws == [ws[0]] + tail;
    }
  }

  lemma {:induction false} LowerFixed(s: string)
    requires IsLower(s)
    ensures Lower(s) == s
  {
  }

  /** `normalize_text`: `" ".join(text.strip().lower().split())`. */
  function NormalizeText(s: string): (r: string)
    ensures Normalized(r)
  {
    var ws := Words(Lower(Strip(s)));
    assert GoodWords(ws) by {
      forall i, k | 0 <= i < |ws| && 0 <= k < |ws[i]|
        ensures LowerChar(ws[i][k]) == ws[i][k]
      {
        assert ws[i][k] in Lower(Strip(s));
      }
    }
    JoinSpaceNormalized(ws);
    JoinSpace(ws)
  }

  /** Leading whitespace does not change the words. */
  lemma {:induction false} WordsLeading(u: string, i: nat)
    requires i <= |u|
    requires forall k :: 0 <= k < i ==> IsSpace(u[k])
    ensures Words(u[i..]) == Words(u)
  {
    if i > 0 {
      WordsLeading(u[1..], i - 1);
      assert u[1..][i - 1..] == u[i..];
    }
  }

  /** A prefix that still holds the first word has the same first word. */
  lemma {:induction false} RunLenOfPrefix(u: string, m: nat)
    requires RunLen(u) <= m <= |u|
    ensures RunLen(u[..m]) == RunLen(u)
  {
    if u != [] && !IsSpace(u[0]) {
      RunLenOfPrefix(u[1..], m - 1);
      assert u[..m][1..] == u[1..][..m - 1];
    }
  }

  /** Trailing whitespace does not change the words. */
  lemma {:induction false} WordsTrailing(u: string, m: nat)
    requires m <= |u|
    requires forall k :: m <= k < |u| ==> IsSpace(u[k])
    ensures Words(u[..m]) == Words(u)
    decreases |u|
  {
    if m == |u| {
      assert u[..m] == u;
    } else if m == 0 {
      WordsLeading(u, |u|);
      assert u[|u|..] == [] && u[..m] == [];
    } else if IsSpace(u[0]) {
      WordsTrailing(u[1..], m - 1);
      assert u[..m][1..] == u[1..][..m - 1];
    } else {
      var n := RunLen(u);
      assert IsSpace(u[m]);
      RunLenOfPrefix(u, m);
      WordsTrailing(u[n..], m - n);
      assert u[..m][n..] == u[n..][..m - n];
      assert u[..m][..n] == u[..n];
    }
  }

  /** Whitespace around a slice does not change the words. */
  lemma {:induction false} WordsTrim(u: string, i: nat, e: nat)
    requires i <= e <= |u|
    requires forall k :: 0 <= k < i ==> IsSpace(u[k])
    requires forall k :: e <= k < |u| ==> IsSpace(u[k])
    ensures Words(u[i..e]) == Words(u)
  {
    var v := u[i..];
    assert v[..e - i] == u[i..e];
    forall k | e - i <= k < |v| ensures IsSpace(v[k]) {
      assert v[k] == u[i + k];
    }
    WordsTrailing(v, e - i);
    WordsLeading(u, i);
  }

  /** `normalize_text` keeps exactly the words of the lower-cased input: it
      is the space-join of those words, and splitting it gives them back. */
  lemma {:induction false} NormalizeTextWords(s: string)
    ensures NormalizeText(s) == JoinSpace(Words(Lower(s)))
    ensures Words(NormalizeText(s)) == Words(Lower(s))
  {
    var t := Strip(s);
    var i := StripStart(s);
    var e := i + |t|;
    var u := Lower(s);
    assert Lower(t) == u[i..e];
    WordsTrim(u, i, e);
    WordsOfJoin(Words(Lower(t)));
  }

  /** After the first word of `s` and one whitespace character, the words
      of the rest follow. */
  lemma {:induction false} WordsStep(s: string, n: nat)
    requires 0 < n < |s| && n == RunLen(s) && IsSpace(s[n])
    ensures Words(s) == [s[..n]] + Words(s[n + 1..])
  {
    assert s[n..][1..] == s[n + 1..];
  }

  /** Past its first word, a normalized string has one ' ' and then a
      normalized rest. */
  lemma {:induction false} NormalizedTail(s: string, n: nat)
    requires Normalized(s) && n == RunLen(s) && n < |s|
    ensures s[n] == ' ' && n + 1 < |s| && Normalized(s[n + 1..])
  {
    var t := s[n + 1..];
    forall i | 0 <= i < |t| && IsSpace(t[i])
      ensures t[i] == ' ' && i + 1 < |t| && !IsSpace(t[i + 1])
    {
      assert t[i] == s[n + 1 + i];
    }
  }

  /** A normalized string is a space-join of good words. */
  lemma {:induction false} NormalizedIsJoin(s: string)
    requires Normalized(s)
    ensures JoinSpace(Words(s)) == s
    decreases |s|
  {
    if s != [] {
      var n := RunLen(s);
      if n == |s| {
        assert s[..n] == s;
        assert s[n..] == [];
      } else {
        NormalizedTail(s, n);
        NormalizedIsJoin(s[n + 1..]);
        JoinOfWordsStep(s, n);
      }
    }
  }

  lemma {:induction false} JoinOfWordsStep(s: string, n: nat)
    requires 0 < n < |s| - 1 && n == RunLen(s) && s[n] == ' '
    requires JoinSpace(Words(s[n + 1..])) == s[n + 1..]
    ensures JoinSpace(Words(s)) == s
  {
    var t := s[n + 1..];
    WordsStep(s, n);
    assert Words(t) != [];
    assert s == s[..n] + " " + t;
  }

  /** `normalize_text` is idempotent. */
  lemma {:induction false} NormalizeTextIdempotent(s: string)
    ensures NormalizeText(NormalizeText(s)) == NormalizeText(s)
  {
    var t := NormalizeText(s);
    StripFixed(t);
    LowerFixed(t);
    NormalizedIsJoin(t);
  }

  /** `s.split(sep)` with an explicit one-character separator. */
  function SplitOn(s: string, sep: char): (parts: seq<string>)
    ensures |parts| >= 1
    ensures forall i :: 0 <= i < |parts| ==> sep !in parts[i]
  {
    if s == [] then [[]]
    else
      var rest := SplitOn(s[1..], sep);
      if s[0] == sep then [[]] + rest
      else [[s[0]] + rest[0]] + rest[1..]
  }

  /** `sep.join(parts)`. */
  function JoinOn(parts: seq<string>, sep: char): string
    requires |parts| >= 1
  {
    if |parts| == 1 then parts[0] else parts[0] + [sep] + JoinOn(parts[1..], sep)
  }

  /** Joining the parts of a split with the same separator rebuilds the text. */
  lemma {:induction false} JoinOfSplit(s: string, sep: char)
    ensures JoinOn(SplitOn(s, sep), sep) == s
  {
    if s != [] {
      var rest := SplitOn(s[1..], sep);
      JoinOfSplit(s[1..], sep);
      if s[0] == sep {
        assert SplitOn(s, sep)[1..] == rest;
      } else {
        var parts := SplitOn(s, sep);
        assert parts[1..] == rest[1..];
        if |rest| > 1 {
          assert JoinOn(rest, sep) == rest[0] + [sep] + JoinOn(rest[1..], sep);
        }
      }
    }
  }
}
