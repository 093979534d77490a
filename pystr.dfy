/**
 * The Python built-ins the modelled functions rely on: `min` and `max`, and,
 * for `str` on `seq<char>`, whitespace and digit classes, `lower`/`upper`,
 * `strip`, `in`, `find`, `split(sep, 1)[-1]`, `split(sep)[0]`, `split()[0]`
 * and `join`.
 * Case mapping is modelled on ASCII letters only; whitespace is Python's
 * full `isspace` set, which is also what the regex class `\s` matches.
 */
module PyStr {
  import opened Wrappers

  /** Python's `min(a, b)` on integers. */
  function Min(a: int, b: int): int { if a <= b then a else b }

  /** Python's `max(a, b)` on integers. */
  function Max(a: int, b: int): int { if a >= b then a else b }

  /** `c.isspace()`, and the regex class `\s` on a `str` pattern. */
  predicate IsSpace(c: char) {
    ('\t' <= c <= '\r') || ('\U{1C}' <= c <= ' ') || c == '\U{85}' || c == '\U{A0}'
    || c == '\U{1680}' || ('\U{2000}' <= c <= '\U{200A}') || c == '\U{2028}'
    || c == '\U{2029}' || c == '\U{202F}' || c == '\U{205F}' || c == '\U{3000}'
  }

  /** The regex class `\d` (ASCII digits). */
  predicate IsDigit(c: char) { '0' <= c <= '9' }

  predicate IsUpper(c: char) { 'A' <= c <= 'Z' }

  predicate IsLowerLetter(c: char) { 'a' <= c <= 'z' }

  /** The regex class `\w` (ASCII letters, digits and underscore). */
  predicate IsWordChar(c: char) { IsUpper(c) || IsLowerLetter(c) || IsDigit(c) || c == '_' }

  predicate AllSpace(s: string) { forall k | 0 <= k < |s| :: IsSpace(s[k]) }

  predicate AllDigits(s: string) { forall k | 0 <= k < |s| :: IsDigit(s[k]) }

  /** No upper-case letter: what `lower()` leaves behind. */
  predicate NoUpper(s: string) { forall k | 0 <= k < |s| :: !IsUpper(s[k]) }

  function LowerChar(c: char): char { if IsUpper(c) then (c as int + 32) as char else c }

  function UpperChar(c: char): char { if IsLowerLetter(c) then (c as int - 32) as char else c }

  /** `s.lower()` */
  function Lower(s: string): string { seq(|s|, k requires 0 <= k < |s| => LowerChar(s[k])) }

  /** `s.upper()` */
  function Upper(s: string): string { seq(|s|, k requires 0 <= k < |s| => UpperChar(s[k])) }

  /** `sub` occurs in `s` starting at index `i`. */
  predicate OccursAt(s: string, sub: string, i: int) {
    0 <= i && i + |sub| <= |s| && s[i..i + |sub|] == sub
  }

  /** Python's `sub in s`. */
  predicate Contains(s: string, sub: string) {
    Find(s, sub, 0) >= 0
  }

  predicate StartsWith(s: string, prefix: string) { OccursAt(s, prefix, 0) }

  predicate EndsWith(s: string, suffix: string) { OccursAt(s, suffix, |s| - |suffix|) }

  /** `s.find(sub, from)`: the least index at or after `from` where `sub` occurs, or -1. */
  function Find(s: string, sub: string, from: nat): (r: int)
    requires from <= |s|
    ensures r == -1 || (from <= r <= |s| && OccursAt(s, sub, r))
    decreases |s| - from
  {
    if OccursAt(s, sub, from) then from
    else if from == |s| then -1
    else Find(s, sub, from + 1)
  }

  /** `find` returns the first occurrence at or after `from`, and -1 only when there is none. */
  lemma {:induction false} FindSpec(s: string, sub: string, from: nat)
    requires from <= |s|
    ensures Find(s, sub, from) >= 0 ==> forall k | from <= k < Find(s, sub, from) :: !OccursAt(s, sub, k)
    ensures Find(s, sub, from) == -1 <==> forall k | from <= k <= |s| :: !OccursAt(s, sub, k)
    decreases |s| - from
  {
    if !OccursAt(s, sub, from) && from < |s| {
      FindSpec(s, sub, from + 1);
    }
  }

  /** `sub in s` holds exactly when `sub` occurs at some index. */
  lemma ContainsSpec(s: string, sub: string)
    ensures Contains(s, sub) <==> exists i | 0 <= i <= |s| :: OccursAt(s, sub, i)
  {
    FindSpec(s, sub, 0);
  }

  lemma ContainsAt(s: string, sub: string, i: int)
    requires OccursAt(s, sub, i)
    ensures Contains(s, sub)
  {
    FindSpec(s, sub, 0);
  }

  lemma NotContains(s: string, sub: string)
    requires !Contains(s, sub)
    ensures forall k | 0 <= k <= |s| :: !OccursAt(s, sub, k)
  {
    FindSpec(s, sub, 0);
  }

  /** `s.split(sep, 1)[-1]`: what follows the first `sep`, or all of `s` when there is none. */
  function AfterFirst(s: string, sep: string): string
    requires sep != []
  {
    var i := Find(s, sep, 0);
    if i < 0 then s else s[i + |sep|..]
  }

  /** `s.split(sep)[0]`: what precedes the first `sep`, or all of `s` when there is none. */
  function BeforeFirst(s: string, sep: string): (r: string)
    requires sep != []
    ensures StartsWith(s, r) && !Contains(r, sep)
  {
    var i := Find(s, sep, 0);
    if i < 0 then s
    else
      assert !Contains(s[..i], sep) by {
        FindSpec(s, sep, 0);
        forall k | 0 <= k <= i ensures !OccursAt(s[..i], sep, k) {
          PrefixOccurs(s, i, sep, k);
        }
        ContainsSpec(s[..i], sep);
      }
      s[..i]
  }

  /** `find` returns the first occurrence. */
  lemma FindFirst(s: string, sub: string, i: nat)
    requires OccursAt(s, sub, i)
    requires forall k | 0 <= k < i :: !OccursAt(s, sub, k)
    ensures Find(s, sub, 0) == i
  {
    FindSpec(s, sub, 0);
  }

  /** An occurrence inside a prefix is an occurrence in the whole string. */
  lemma PrefixOccurs(s: string, n: nat, sub: string, k: int)
    requires n <= |s|
    ensures OccursAt(s[..n], sub, k) ==> OccursAt(s, sub, k) && k + |sub| <= n
  {
    if OccursAt(s[..n], sub, k) {
      assert s[..n][k..k + |sub|] == s[k..k + |sub|];
    }
  }

  /** A suffix of `s` is a suffix of anything that ends in `s`. */
  lemma EndsWithAfter(p: string, s: string, suffix: string)
    requires EndsWith(s, suffix)
    ensures EndsWith(p + s, suffix)
  {
    var t := p + s;
    assert t[|t| - |suffix|..] == s[|s| - |suffix|..];
  }

  /** A one-character string occurs exactly where that character is. */
  lemma CharOccurs(s: string, c: char, k: int)
    requires 0 <= k < |s|
    ensures OccursAt(s, [c], k) <==> s[k] == c
  {
    assert s[k..k + 1] == [s[k]];
  }

  /** A string that contains `a + b` contains `a`. */
  lemma ContainsPrefixOf(s: string, a: string, b: string)
    requires Contains(s, a + b)
    ensures Contains(s, a)
  {
    var r := Find(s, a + b, 0);
    assert s[r..r + |a|] == (a + b)[..|a|];
    ContainsAt(s, a, r);
  }

  /** A string that does not contain `[c]` has no character `c`. */
  lemma NotContainsChar(s: string, c: char)
    requires !Contains(s, [c])
    ensures forall k | 0 <= k < |s| :: s[k] != c
  {
    NotContains(s, [c]);
    forall k | 0 <= k < |s| ensures s[k] != c {
      CharOccurs(s, c, k);
    }
  }

  /** The character classes the modelled regular expressions repeat. */
  datatype CharClass = Space | NonSpace | Digit | NotDigit | NotQuote | WordOrDot

  predicate InClass(c: char, cls: CharClass) {
    match cls
    case Space => IsSpace(c)
    case NonSpace => !IsSpace(c)
    case Digit => IsDigit(c)
    case NotDigit => !IsDigit(c)
    case NotQuote => c != '\''
    case WordOrDot => IsWordChar(c) || c == '.'
  }

  /** The end of the longest run of `cls` characters starting at `i` (a greedy `X*`). */
  function RunEnd(s: string, i: nat, cls: CharClass): (j: nat)
    requires i <= |s|
    ensures i <= j <= |s|
    ensures forall k | i <= k < j :: InClass(s[k], cls)
    ensures j == |s| || !InClass(s[j], cls)
    decreases |s| - i
  {
    if i < |s| && InClass(s[i], cls) then RunEnd(s, i + 1, cls) else i
  }

  /** A run of `cls` characters from `i` that stops at `j` is the one `RunEnd` finds. */
  lemma RunEndUnique(s: string, i: nat, cls: CharClass, j: nat)
    requires i <= j <= |s|
    requires forall k | i <= k < j :: InClass(s[k], cls)
    requires j == |s| || !InClass(s[j], cls)
    ensures RunEnd(s, i, cls) == j
  {
  }

  /** The start of the run of whitespace that ends at `j`, not going below `lo`. */
  function SpaceRunStart(s: string, lo: nat, j: nat): (r: nat)
    requires lo <= j <= |s|
    ensures lo <= r <= j
    ensures forall k | r <= k < j :: IsSpace(s[k])
    ensures r == lo || !IsSpace(s[r - 1])
    decreases j
  {
    if j > lo && IsSpace(s[j - 1]) then SpaceRunStart(s, lo, j - 1) else j
  }

  /** No whitespace at either end. */
  predicate Trimmed(s: string) { s == [] || (!IsSpace(s[0]) && !IsSpace(s[|s| - 1])) }

  /** `s.strip()` */
  function Strip(s: string): (r: string)
    ensures |r| <= |s| && Trimmed(r)
    ensures r == [] <==> AllSpace(s)
  {
    var i := RunEnd(s, 0, Space);
    var j := SpaceRunStart(s, i, |s|);
    s[i..j]
  }

  /** `s.split()[0]`: the first whitespace-delimited token, `None` where Python raises IndexError. */
  function FirstToken(s: string): (r: Option<string>)
    ensures r.None? <==> AllSpace(s)
    ensures r.Some? ==> r.value != [] && forall k | 0 <= k < |r.value| :: !IsSpace(r.value[k])
  {
    var i := RunEnd(s, 0, Space);
    if i == |s| then None else Some(s[i..RunEnd(s, i, NonSpace)])
  }

  /** The first token of a trimmed, non-empty string is a prefix of it ending at a space or at the end. */
  lemma FirstTokenOfTrimmed(s: string)
    requires s != [] && Trimmed(s)
    ensures FirstToken(s).Some?
    ensures var t := FirstToken(s).value;
            StartsWith(s, t) && (|t| == |s| || IsSpace(s[|t|]))
  {
    assert RunEnd(s, 0, Space) == 0;
    var e := RunEnd(s, 0, NonSpace);
    assert FirstToken(s).value == s[..e];
  }

  /** `sep.join(xs)` */
  function Join(sep: string, xs: seq<string>): string {
    if |xs| == 0 then ""
    else if |xs| == 1 then xs[0]
    else xs[0] + sep + Join(sep, xs[1..])
  }

  /** No character of `s` is `c`. */
  predicate Avoids(s: string, c: char) {
    forall k | 0 <= k < |s| :: s[k] != c
  }

  lemma AvoidsConcat(a: string, b: string, c: char)
    requires Avoids(a, c) && Avoids(b, c)
    ensures Avoids(a + b, c)
  {
    forall k | 0 <= k < |a + b| ensures (a + b)[k] != c {
      if k < |a| { assert (a + b)[k] == a[k]; } else { assert (a + b)[k] == b[k - |a|]; }
    }
  }

  /** A string without some character of `sub` does not contain `sub`. */
  lemma AvoidedCharExcludes(s: string, sub: string, m: nat)
    requires m < |sub| && Avoids(s, sub[m])
    ensures !Contains(s, sub)
  {
    ContainsSpec(s, sub);
    forall i | 0 <= i <= |s| ensures !OccursAt(s, sub, i) {
      if i + |sub| <= |s| {
        assert s[i..i + |sub|][m] == s[i + m];
      }
    }
  }

  /** No string of `xs` has the character `c`. */
  predicate AllAvoid(xs: seq<string>, c: char) {
    forall i | 0 <= i < |xs| :: Avoids(xs[i], c)
  }

  /** Joining strings that avoid a character, with a separator that avoids it, avoids it too. */
  lemma {:induction false} JoinAvoids(sep: string, xs: seq<string>, c: char)
    requires Avoids(sep, c) && AllAvoid(xs, c)
    ensures Avoids(Join(sep, xs), c)
    decreases |xs|
  {
    if |xs| > 1 {
      JoinAvoids(sep, xs[1..], c);
      AvoidsConcat(xs[0], sep, c);
      AvoidsConcat(xs[0] + sep, Join(sep, xs[1..]), c);
    }
  }

  /** Stripping removes characters, never adds one. */
  lemma StripKeepsAbsent(s: string, c: char)
    requires forall k | 0 <= k < |s| :: s[k] != c
    ensures forall k | 0 <= k < |Strip(s)| :: Strip(s)[k] != c
  {
    var i, j := StripParts(s);
    assert forall k | 0 <= k < |Strip(s)| :: Strip(s)[k] == s[i + k];
  }

  /** `strip` returns the core of any padding of a trimmed string. */
  lemma StripUnique(p: string, r: string, q: string)
    requires AllSpace(p) && AllSpace(q) && Trimmed(r)
    ensures Strip(p + r + q) == r
  {
    var s := p + r + q;
    var i := RunEnd(s, 0, Space);
    var j := SpaceRunStart(s, i, |s|);
    if r == [] {
      assert AllSpace(s);
      assert i == |s|;
    } else {
      assert s[|p|] == r[0];
      assert i == |p|;
      assert s[|p| + |r| - 1] == r[|r| - 1];
      assert j == |p| + |r|;
      assert s[i..j] == r;
    }
  }

  lemma AllSpaceConcat(x: string, y: string)
    requires AllSpace(x) && AllSpace(y)
    ensures AllSpace(x + y)
  {
    forall k | 0 <= k < |x + y| ensures IsSpace((x + y)[k]) {
      if k < |x| { assert (x + y)[k] == x[k]; } else { assert (x + y)[k] == y[k - |x|]; }
    }
  }

  /** The three parts `strip` splits a string into: leading space, core, trailing space. */
  lemma StripParts(s: string) returns (i: nat, j: nat)
    ensures i <= j <= |s| && Strip(s) == s[i..j]
    ensures AllSpace(s[..i]) && AllSpace(s[j..]) && Trimmed(s[i..j])
    ensures s == s[..i] + s[i..j] + s[j..]
  {
    i := RunEnd(s, 0, Space);
    j := SpaceRunStart(s, i, |s|);
    assert Strip(s) == s[i..j];
    assert AllSpace(s[..i]) by {
      forall k | 0 <= k < i ensures IsSpace(s[..i][k]) { assert s[..i][k] == s[k]; }
    }
    assert AllSpace(s[j..]) by {
      forall k | 0 <= k < |s| - j ensures IsSpace(s[j..][k]) { assert s[j..][k] == s[j + k]; }
    }
  }

  /** `strip()` ignores any surrounding whitespace. */
  lemma StripPadding(w1: string, a: string, w2: string)
    requires AllSpace(w1) && AllSpace(w2)
    ensures Strip(w1 + a + w2) == Strip(a)
  {
    var i, j := StripParts(a);
    AllSpaceConcat(w1, a[..i]);
    AllSpaceConcat(a[j..], w2);
    Regroup(w1, a, w2, i, j);
    StripUnique(w1 + a[..i], a[i..j], a[j..] + w2);
  }

  lemma Regroup(w1: string, a: string, w2: string, i: nat, j: nat)
    requires i <= j <= |a|
    ensures w1 + a + w2 == (w1 + a[..i]) + a[i..j] + (a[j..] + w2)
  {
    assert a == a[..i] + a[i..j] + a[j..];
  }

  lemma LowerPreservesSpace(c: char)
    ensures IsSpace(LowerChar(c)) <==> IsSpace(c)
    ensures IsSpace(UpperChar(c)) <==> IsSpace(c)
  {
  }

  /** Lower-casing and stripping commute: case mapping never touches whitespace. */
  lemma StripLower(s: string)
    ensures Strip(Lower(s)) == Lower(Strip(s))
  {
    var i, j := StripParts(s);
    LowerConcat(s[..i] + s[i..j], s[j..]);
    LowerConcat(s[..i], s[i..j]);
    CaseMapKeepsSpace(s[..i], s[i..j], s[j..]);
    StripUnique(Lower(s[..i]), Lower(s[i..j]), Lower(s[j..]));
  }

  lemma StripUpper(s: string)
    ensures Strip(Upper(s)) == Upper(Strip(s))
  {
    var i, j := StripParts(s);
    UpperConcat(s[..i] + s[i..j], s[j..]);
    UpperConcat(s[..i], s[i..j]);
    CaseMapKeepsSpace(s[..i], s[i..j], s[j..]);
    StripUnique(Upper(s[..i]), Upper(s[i..j]), Upper(s[j..]));
  }

  /** Case mapping keeps whitespace whitespace and non-whitespace non-whitespace. */
  lemma CaseMapKeepsSpace(p: string, r: string, q: string)
    requires AllSpace(p) && AllSpace(q) && Trimmed(r)
    ensures AllSpace(Lower(p)) && AllSpace(Lower(q)) && Trimmed(Lower(r))
    ensures AllSpace(Upper(p)) && AllSpace(Upper(q)) && Trimmed(Upper(r))
  {
    forall c: char ensures IsSpace(LowerChar(c)) == IsSpace(c) && IsSpace(UpperChar(c)) == IsSpace(c) {
      LowerPreservesSpace(c);
    }
  }

  lemma LowerIdempotent(s: string)
    ensures Lower(Lower(s)) == Lower(s)
  {
  }

  /** Lower-casing forgets how a string was cased. */
  lemma LowerOfUpper(s: string)
    ensures Lower(Upper(s)) == Lower(s)
  {
  }

  lemma LowerConcat(a: string, b: string)
    ensures Lower(a + b) == Lower(a) + Lower(b)
  {
  }

  lemma UpperConcat(a: string, b: string)
    ensures Upper(a + b) == Upper(a) + Upper(b)
  {
  }

  /** Upper-casing keeps every occurrence, upper-cased. */
  lemma UpperKeepsContains(s: string, sub: string)
    requires Contains(s, sub)
    ensures Contains(Upper(s), Upper(sub))
  {
    var i := Find(s, sub, 0);
    assert Upper(s)[i..i + |sub|] == Upper(sub) by {
      forall k | 0 <= k < |sub| ensures Upper(s)[i..i + |sub|][k] == Upper(sub)[k] {
        assert s[i..i + |sub|][k] == sub[k];
      }
    }
    ContainsAt(Upper(s), Upper(sub), i);
  }

  /** Upper-casing leaves a string without lower-case letters as it is. */
  lemma UpperOfUpperCase(s: string)
    requires forall k | 0 <= k < |s| :: !IsLowerLetter(s[k])
    ensures Upper(s) == s
  {
  }


}
