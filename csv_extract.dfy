/**
 * The two helpers of the CSV extraction script (scripts/extract_from_csv.py):
 * `simplify_query`, which normalises the whitespace of a logged SQL query and
 * masks its parameters and collection prefixes, and
 * `generate_natural_language`, which describes a query with one of five
 * sentences.
 */
module CsvExtract {
  import opened Wrappers
  import opened PyStr

  // ---------------------------------------------------------------------------
  // re.sub(r'\s+', ' ', ...)
  // ---------------------------------------------------------------------------

  /** Every whitespace character is a plain space and is followed by no other whitespace. */
  predicate SingleSpaced(s: string) {
    forall k | 0 <= k < |s| :: IsSpace(s[k]) ==> s[k] == ' ' && (k + 1 == |s| || !IsSpace(s[k + 1]))
  }

  /** The characters of `s` that are not whitespace, in order. */
  function NonSpaces(s: string): string {
    if s == [] then [] else (if IsSpace(s[0]) then [] else [s[0]]) + NonSpaces(s[1..])
  }

  /** `re.sub(r'\s+', ' ', s)`: each maximal run of whitespace becomes one space. */
  function CollapseSpaces(s: string): (r: string)
    ensures |r| <= |s|
    ensures r == [] <==> s == []
    decreases |s|
  {
    if s == [] then []
    else if IsSpace(s[0]) then
      var j := RunEnd(s, 0, Space);
      [' '] + CollapseSpaces(s[j..])
    else
      [s[0]] + CollapseSpaces(s[1..])
  }

  /** Collapsing keeps the first and last characters, turning whitespace there into a plain space. */
  lemma CollapseEnds(s: string)
    ensures var r := CollapseSpaces(s);
            s != [] ==>
              && r[0] == (if IsSpace(s[0]) then ' ' else s[0])
              && r[|r| - 1] == (if IsSpace(s[|s| - 1]) then ' ' else s[|s| - 1])
  {
    if s != [] {
      CollapseLast(s);
    }
  }

  lemma {:induction false} CollapseLast(s: string)
    requires s != []
    ensures LastKept(s, CollapseSpaces(s))
    decreases |s|
  {
    var next := if IsSpace(s[0]) then RunEnd(s, 0, Space) else 1;
    if next < |s| {
      var c := if IsSpace(s[0]) then ' ' else s[0];
      CollapseLast(s[next..]);
      assert CollapseSpaces(s) == [c] + CollapseSpaces(s[next..]);
      LastKeptCons(s, next, c, CollapseSpaces(s[next..]));
    } else {
      CollapseLastAtEnd(s);
    }
  }

  /** `r` ends with the last character of `s`, a plain space if that was whitespace. */
  predicate LastKept(s: string, r: string)
    requires s != [] && r != []
  {
    r[|r| - 1] == (if IsSpace(s[|s| - 1]) then ' ' else s[|s| - 1])
  }

  lemma LastKeptCons(s: string, next: nat, c: char, rest: string)
    requires 0 < next < |s| && rest != []
    requires LastKept(s[next..], rest)
    ensures LastKept(s, [c] + rest)
  {
    assert s[next..][|s| - next - 1] == s[|s| - 1];
    assert ([c] + rest)[|rest|] == rest[|rest| - 1];
  }

  lemma CollapseLastAtEnd(s: string)
    requires s != []
    requires |s| <= if IsSpace(s[0]) then RunEnd(s, 0, Space) else 1
    ensures LastKept(s, CollapseSpaces(s))
  {
    if IsSpace(s[0]) {
      assert InClass(s[|s| - 1], Space);
      assert CollapseSpaces(s) == [' '] + CollapseSpaces(s[|s|..]);
    } else {
      assert CollapseSpaces(s) == [s[0]] + CollapseSpaces(s[1..]);
    }
  }

  /** Every whitespace character left is one plain space with no whitespace after it. */
  lemma {:induction false} CollapseSingleSpaced(s: string)
    ensures SingleSpaced(CollapseSpaces(s))
    decreases |s|
  {
    if s != [] {
      if IsSpace(s[0]) {
        var j := RunEnd(s, 0, Space);
        CollapseSingleSpaced(s[j..]);
        CollapseEnds(s[j..]);
        ConsSingleSpaced(' ', CollapseSpaces(s[j..]));
      } else {
        CollapseSingleSpaced(s[1..]);
        ConsSingleSpaced(s[0], CollapseSpaces(s[1..]));
      }
    }
  }

  /** Leading whitespace contributes nothing to `NonSpaces`. */
  lemma {:induction false} NonSpacesSkip(s: string, j: nat)
    requires j <= |s| && forall k | 0 <= k < j :: IsSpace(s[k])
    ensures NonSpaces(s) == NonSpaces(s[j..])
    decreases j
  {
    if j > 0 {
      assert s[1..][j - 1..] == s[j..];
      NonSpacesSkip(s[1..], j - 1);
    }
  }

  /** Collapsing whitespace keeps every other character, in order. */
  lemma {:induction false} CollapseKeepsNonSpaces(s: string)
    ensures NonSpaces(CollapseSpaces(s)) == NonSpaces(s)
    decreases |s|
  {
    if s != [] {
      if IsSpace(s[0]) {
        var j := RunEnd(s, 0, Space);
        CollapseKeepsNonSpaces(s[j..]);
        NonSpacesSkip(s, j);
        NonSpacesCons(' ', CollapseSpaces(s[j..]));
      } else {
        CollapseKeepsNonSpaces(s[1..]);
        NonSpacesCons(s[0], CollapseSpaces(s[1..]));
      }
    }
  }

  lemma NonSpacesCons(c: char, s: string)
    ensures NonSpaces([c] + s) == (if IsSpace(c) then [] else [c]) + NonSpaces(s)
  {
    assert ([c] + s)[1..] == s;
  }

  /** Putting a character in front keeps a text single-spaced unless it makes two spaces. */
  lemma ConsSingleSpaced(c: char, rest: string)
    requires SingleSpaced(rest)
    requires IsSpace(c) ==> c == ' ' && (rest == [] || !IsSpace(rest[0]))
    ensures SingleSpaced([c] + rest)
  {
    assert forall k | 1 <= k < |rest| + 1 :: ([c] + rest)[k] == rest[k - 1];
  }

  /** Text that is already single-spaced is left as it is. */
  lemma {:induction false} CollapseFixesSingleSpaced(s: string)
    requires SingleSpaced(s)
    ensures CollapseSpaces(s) == s
    decreases |s|
  {
    if s != [] {
      SingleSpacedTail(s);
      CollapseFixesSingleSpaced(s[1..]);
      if IsSpace(s[0]) {
        assert RunEnd(s, 1, Space) == 1;
        assert RunEnd(s, 0, Space) == 1;
      }
      assert s == [s[0]] + s[1..];
    }
  }

  /** A character that is not whitespace is copied. */
  lemma CollapseCons(c: char, t: string)
    requires !IsSpace(c)
    ensures CollapseSpaces([c] + t) == [c] + CollapseSpaces(t)
  {
    assert ([c] + t)[1..] == t;
  }

  /** A whitespace run in front of a word, or at the end, becomes exactly one space. */
  lemma CollapseRun(w: string, y: string)
    requires w != [] && AllSpace(w) && (y == [] || !IsSpace(y[0]))
    ensures CollapseSpaces(w + y) == " " + CollapseSpaces(y)
  {
    RunEndUnique(w + y, 0, Space, |w|);
    assert (w + y)[|w|..] == y;
  }

  /**
   * Regrouping a concatenation, stated over plain strings so that the
   * collapse proofs below need not regroup terms that unfold `CollapseSpaces`.
   */
  lemma Reassoc(a: string, b: string, c: string)
    ensures a + (b + c) == (a + b) + c
  {
  }

  /** Collapsing splits at a character that is not whitespace. */
  lemma {:induction false} CollapseConcat(x: string, z: string)
    requires x != [] && !IsSpace(x[|x| - 1])
    ensures CollapseSpaces(x + z) == CollapseSpaces(x) + CollapseSpaces(z)
    decreases |x|
  {
    var b := CollapseSpaces(z);
    if IsSpace(x[0]) {
      var j := RunEnd(x, 0, Space);
      assert j < |x|;
      var w, t := x[..j], x[j..];
      assert x == w + t && x + z == w + (t + z);
      CollapseRun(w, t + z);
      CollapseRun(w, t);
      CollapseConcat(t, z);
      Reassoc(" ", CollapseSpaces(t), b);
    } else {
      var t := x[1..];
      assert x == [x[0]] + t && x + z == [x[0]] + (t + z);
      CollapseCons(x[0], t + z);
      CollapseCons(x[0], t);
      if t == [] {
        assert t + z == z;
      } else {
        CollapseConcat(t, z);
      }
      Reassoc([x[0]], CollapseSpaces(t), b);
    }
  }

  /** Between two words, any run of whitespace becomes one space: it neither vanishes nor doubles. */
  lemma CollapseSeparator(x: string, w: string, y: string)
    requires x != [] && !IsSpace(x[|x| - 1])
    requires w != [] && AllSpace(w)
    requires y == [] || !IsSpace(y[0])
    ensures CollapseSpaces(x + w + y) == CollapseSpaces(x) + " " + CollapseSpaces(y)
  {
    assert x + w + y == x + (w + y);
    CollapseConcat(x, w + y);
    CollapseRun(w, y);
  }

  lemma SingleSpacedTail(s: string)
    requires s != [] && SingleSpaced(s)
    ensures SingleSpaced(s[1..])
  {
    assert forall k | 0 <= k < |s| - 1 :: s[1..][k] == s[k + 1];
  }

  // ---------------------------------------------------------------------------
  // re.sub(r'\bp\d+\b', '?', ...) and re.sub(r'collection\d+_', '?', ...)
  // ---------------------------------------------------------------------------

  /** The two patterns `simplify_query` masks with `?`. */
  datatype Pattern =
    | ParamToken     // \bp\d+\b
    | CollectionRef  // collection\d+_

  /** The ten letters of `collection` are word characters. */
  lemma CollectionIsWord()
    ensures forall m | 0 <= m < 10 :: IsWordChar("collection"[m])
  {
    forall m | 0 <= m < 10 ensures IsWordChar("collection"[m]) {
      assert "collection"[m] in "collection";
    }
  }

  /** `\bp\d+\b` matches `s[i..j]`: a `p` with no word character before it, digits, then no word character. */
  predicate ParamAt(s: string, i: nat, j: nat) {
    && i + 1 < j <= |s|
    && s[i] == 'p' && (i == 0 || !IsWordChar(s[i - 1]))
    && (forall k | i + 1 <= k < j :: IsDigit(s[k]))
    && (j == |s| || !IsWordChar(s[j]))
  }

  /** `collection\d+_` matches `s[i..j]`: the word `collection`, digits, then an underscore. */
  predicate CollectionAt(s: string, i: nat, j: nat) {
    && i + 11 < j <= |s|
    && OccursAt(s, "collection", i)
    && (forall k | i + 10 <= k < j - 1 :: IsDigit(s[k]))
    && s[j - 1] == '_'
  }

  /** `pat` matches `s[i..j]`. */
  predicate MatchesAt(s: string, pat: Pattern, i: nat, j: nat) {
    match pat
    case ParamToken => ParamAt(s, i, j)
    case CollectionRef => CollectionAt(s, i, j)
  }

  /** Where the match of `pat` that starts at `i` ends, if there is one (`MatchEndExactly`). */
  function MatchEnd(s: string, i: nat, pat: Pattern): (r: Option<nat>)
    requires i <= |s|
    ensures r.Some? ==> MatchesAt(s, pat, i, r.value)
    ensures r.Some? ==> i + 2 <= r.value <= |s| && forall k | i <= k < r.value :: IsWordChar(s[k])
  {
    match pat
    case ParamToken =>
      if i < |s| && s[i] == 'p' && (i == 0 || !IsWordChar(s[i - 1])) then
        var j := RunEnd(s, i + 1, Digit);
        if j > i + 1 && (j == |s| || !IsWordChar(s[j])) then Some(j) else None
      else None
    case CollectionRef =>
      if OccursAt(s, "collection", i) then
        var j := RunEnd(s, i + 10, Digit);
        if j > i + 10 && j < |s| && s[j] == '_' then
          CollectionIsWord();
          assert forall k | i <= k < i + 10 :: s[k] == "collection"[k - i];
          Some(j + 1)
        else None
      else None
  }

  /**
   * `MatchEnd` finds exactly the matches of `pat` at `i`. There is at most
   * one: the greedy `\d+` gives nothing back, because what must follow it
   * (a word boundary, an underscore) cannot be a digit.
   */
  lemma MatchEndExactly(s: string, i: nat, pat: Pattern, j: nat)
    requires i <= |s|
    ensures MatchEnd(s, i, pat) == Some(j) <==> MatchesAt(s, pat, i, j)
  {
    if MatchesAt(s, pat, i, j) {
      match pat
      case ParamToken =>
        RunEndUnique(s, i + 1, Digit, j);
      case CollectionRef =>
        RunEndUnique(s, i + 10, Digit, j - 1);
    }
  }

  /** A `p` right after a word character, as in `top10`, never starts a parameter. */
  lemma EmbeddedParamKept(s: string, i: nat)
    requires 0 < i < |s| && IsWordChar(s[i - 1])
    ensures MatchEnd(s, i, ParamToken).None?
  {
  }

  /** Nor does a `p` whose digits run into a letter or an underscore, as in `p1x`. */
  lemma ParamNeedsEndBoundary(s: string, i: nat, j: nat)
    requires i + 1 < j < |s| && s[i] == 'p'
    requires forall k | i + 1 <= k < j :: IsDigit(s[k])
    requires IsWordChar(s[j]) && !IsDigit(s[j])
    ensures MatchEnd(s, i, ParamToken).None?
  {
  }

  /** `re.sub(pat, '?', s[i..])`, scanning left to right over the original text. */
  function Substitute(s: string, pat: Pattern, i: nat): (r: string)
    requires i <= |s|
    ensures |r| <= |s| - i
    ensures r == [] <==> i == |s|
    decreases |s| - i
  {
    if i == |s| then []
    else
      var m := MatchEnd(s, i, pat);
      if m.Some? then
        "?" + Substitute(s, pat, m.value)
      else
        [s[i]] + Substitute(s, pat, i + 1)
  }

  /** A masked span holds no whitespace, so whitespace at either end of the text stays there. */
  lemma SubstituteEnds(s: string, pat: Pattern, i: nat)
    requires i <= |s|
    ensures var r := Substitute(s, pat, i);
            i < |s| ==> (IsSpace(r[0]) <==> IsSpace(s[i])) && (IsSpace(r[|r| - 1]) <==> IsSpace(s[|s| - 1]))
  {
    if i < |s| {
      SubstituteFirst(s, pat, i);
      SubstituteLast(s, pat, i);
    }
  }

  lemma SubstituteFirst(s: string, pat: Pattern, i: nat)
    requires i < |s|
    ensures IsSpace(Substitute(s, pat, i)[0]) <==> IsSpace(s[i])
  {
    if MatchEnd(s, i, pat).Some? {
      MaskedSpanHasNoSpace(s, pat, i);
    }
  }

  /** The text keeps its last character, unless it ends in a masked span, which holds no whitespace. */
  lemma {:induction false} SubstituteLast(s: string, pat: Pattern, i: nat)
    requires i < |s|
    ensures KeepsLast(s, pat, i)
    decreases |s| - i
  {
    var m := MatchEnd(s, i, pat);
    var next := if m.Some? then m.value else i + 1;
    if next < |s| {
      SubstituteLast(s, pat, next);
      LastStep(s, pat, i, next);
    } else {
      LastAtEnd(s, pat, i);
    }
  }

  /** The last character of what position `i` on becomes is the text's own, or `?` over a word character. */
  predicate KeepsLast(s: string, pat: Pattern, i: nat)
    requires i < |s|
  {
    var r := Substitute(s, pat, i);
    r[|r| - 1] == s[|s| - 1] || (r[|r| - 1] == '?' && !IsSpace(s[|s| - 1]))
  }

  lemma LastStep(s: string, pat: Pattern, i: nat, next: nat)
    requires i < next < |s|
    requires next == if MatchEnd(s, i, pat).Some? then MatchEnd(s, i, pat).value else i + 1
    requires KeepsLast(s, pat, next)
    ensures KeepsLast(s, pat, i)
  {
    var r, rest := Substitute(s, pat, i), Substitute(s, pat, next);
    assert r == (if MatchEnd(s, i, pat).Some? then "?" else [s[i]]) + rest;
    assert r[|r| - 1] == rest[|rest| - 1];
  }

  lemma LastAtEnd(s: string, pat: Pattern, i: nat)
    requires i < |s|
    requires |s| <= if MatchEnd(s, i, pat).Some? then MatchEnd(s, i, pat).value else i + 1
    ensures KeepsLast(s, pat, i)
  {
    if MatchEnd(s, i, pat).Some? {
      MaskedSpanHasNoSpace(s, pat, i);
      assert Substitute(s, pat, i) == "?";
    } else {
      assert Substitute(s, pat, i) == [s[i]];
    }
  }

  /** A masked span begins and ends with a word character. */
  lemma MaskedSpanHasNoSpace(s: string, pat: Pattern, i: nat)
    requires i <= |s| && MatchEnd(s, i, pat).Some?
    ensures var j := MatchEnd(s, i, pat).value;
            i < j <= |s| && !IsSpace(s[i]) && !IsSpace(s[j - 1])
  {
  }

  /** From position `i` on, every whitespace character is a lone plain space. */
  predicate SpacedFrom(s: string, i: nat) {
    forall k | i <= k < |s| :: IsSpace(s[k]) ==> s[k] == ' ' && (k + 1 == |s| || !IsSpace(s[k + 1]))
  }

  /** A masked span holds no whitespace and becomes `?`, so the spacing of the text survives. */
  lemma {:induction false} SubstituteKeepsSpacing(s: string, pat: Pattern, i: nat)
    requires i <= |s| && SpacedFrom(s, i)
    ensures SingleSpaced(Substitute(s, pat, i))
    decreases |s| - i
  {
    if i < |s| {
      var m := MatchEnd(s, i, pat);
      var next := if m.Some? then m.value else i + 1;
      assert SpacedFrom(s, next);
      SubstituteKeepsSpacing(s, pat, next);
      SpacingStep(s, pat, i, next);
    }
  }

  /** One step of the scan keeps the output single-spaced. */
  lemma SpacingStep(s: string, pat: Pattern, i: nat, next: nat)
    requires i < next <= |s| && SpacedFrom(s, i)
    requires next == if MatchEnd(s, i, pat).Some? then MatchEnd(s, i, pat).value else i + 1
    requires SingleSpaced(Substitute(s, pat, next))
    ensures SingleSpaced(Substitute(s, pat, i))
  {
    if MatchEnd(s, i, pat).Some? {
      ConsSingleSpaced('?', Substitute(s, pat, next));
    } else {
      if next < |s| {
        SubstituteFirst(s, pat, next);
      }
      ConsSingleSpaced(s[i], Substitute(s, pat, next));
    }
  }

  /** `pat` matches at no position in `[from, i)`. */
  predicate NoMatchIn(s: string, pat: Pattern, from: nat, i: nat)
    requires from <= i <= |s|
    decreases i - from
  {
    from == i || (MatchEnd(s, from, pat).None? && NoMatchIn(s, pat, from + 1, i))
  }

  /** The same, read off position by position. */
  lemma {:induction false} NoMatchInAll(s: string, pat: Pattern, from: nat, i: nat)
    requires from <= i <= |s|
    requires forall k | from <= k < i :: MatchEnd(s, k, pat).None?
    ensures NoMatchIn(s, pat, from, i)
    decreases i - from
  {
    if from < i {
      NoMatchInAll(s, pat, from + 1, i);
    }
  }

  /** Where the pattern matches nowhere, the text is returned unchanged. */
  lemma SubstituteWithoutMatch(s: string, pat: Pattern, i: nat)
    requires i <= |s| && NoMatchIn(s, pat, i, |s|)
    ensures Substitute(s, pat, i) == s[i..]
  {
    CopiedUpTo(s, pat, i, |s|);
    assert s[i..|s|] + [] == s[i..];
  }

  /**
   * Up to the first match the text is copied; the match becomes `?` and the
   * scan resumes where the match ends.
   */
  lemma SubstituteSplice(s: string, pat: Pattern, from: nat, i: nat, j: nat)
    requires from <= i <= |s| && MatchesAt(s, pat, i, j)
    requires forall k | from <= k < i :: MatchEnd(s, k, pat).None?
    ensures j <= |s| && Substitute(s, pat, from) == s[from..i] + "?" + Substitute(s, pat, j)
  {
    NoMatchInAll(s, pat, from, i);
    CopiedUpTo(s, pat, from, i);
    SubstituteMasks(s, pat, i, j);
    assert s[from..i] + ("?" + Substitute(s, pat, j)) == (s[from..i] + "?") + Substitute(s, pat, j);
  }

  /** Where nothing matches, the text is copied up to the next position considered. */
  lemma {:induction false} CopiedUpTo(s: string, pat: Pattern, from: nat, i: nat)
    requires from <= i <= |s|
    requires NoMatchIn(s, pat, from, i)
    ensures Substitute(s, pat, from) == s[from..i] + Substitute(s, pat, i)
    decreases i - from
  {
    if from < i {
      CopiedUpTo(s, pat, from + 1, i);
      CopyStep(s, pat, from, i);
    }
  }

  /** One copied character in front of a copied stretch extends it by that character. */
  lemma CopyStep(s: string, pat: Pattern, from: nat, i: nat)
    requires from < i <= |s| && MatchEnd(s, from, pat).None?
    requires Substitute(s, pat, from + 1) == s[from + 1..i] + Substitute(s, pat, i)
    ensures Substitute(s, pat, from) == s[from..i] + Substitute(s, pat, i)
  {
    SubstituteCopies(s, pat, from);
    assert [s[from]] + (s[from + 1..i] + Substitute(s, pat, i)) == ([s[from]] + s[from + 1..i]) + Substitute(s, pat, i);
    SliceCons(s, from, i);
  }

  lemma SliceCons(s: string, a: nat, b: nat)
    requires a < b <= |s|
    ensures s[a..b] == [s[a]] + s[a + 1..b]
  {
  }

  /** Where the pattern does not match, the character is copied. */
  lemma SubstituteCopies(s: string, pat: Pattern, i: nat)
    requires i < |s| && MatchEnd(s, i, pat).None?
    ensures Substitute(s, pat, i) == [s[i]] + Substitute(s, pat, i + 1)
  {
  }

  /** Where it matches, the match becomes `?`. */
  lemma SubstituteMasks(s: string, pat: Pattern, i: nat, j: nat)
    requires i <= |s| && MatchesAt(s, pat, i, j)
    ensures j <= |s| && Substitute(s, pat, i) == "?" + Substitute(s, pat, j)
  {
    MatchEndExactly(s, i, pat, j);
  }

  /** A word-bounded parameter is masked. */
  lemma MaskParamExample()
    ensures Substitute("id = p1", ParamToken, 0) == "id = ?"
  {
    var s := "id = p1";
    assert ParamAt(s, 5, 7);
    forall k | 0 <= k < 5 ensures MatchEnd(s, k, ParamToken).None? {
      assert s[k] != 'p';
    }
    SubstituteSplice(s, ParamToken, 0, 5, 7);
  }

  /** A `p` and digits inside a longer word are kept. */
  lemma KeepEmbeddedExample()
    ensures Substitute("top10", ParamToken, 0) == "top10"
    ensures Substitute("p1x", ParamToken, 0) == "p1x"
  {
    var s := "top10";
    forall k | 0 <= k < |s| ensures MatchEnd(s, k, ParamToken).None? {
      if k == 2 { EmbeddedParamKept(s, k); } else { assert s[k] != 'p'; }
    }
    NoMatchInAll(s, ParamToken, 0, |s|);
    SubstituteWithoutMatch(s, ParamToken, 0);
    var t := "p1x";
    forall k | 0 <= k < |t| ensures MatchEnd(t, k, ParamToken).None? {
      if k == 0 { ParamNeedsEndBoundary(t, 0, 2); } else { assert t[k] != 'p'; }
    }
    NoMatchInAll(t, ParamToken, 0, |t|);
    SubstituteWithoutMatch(t, ParamToken, 0);
  }

  /** A collection prefix is masked and the name after it is kept. */
  lemma MaskCollectionExample()
    ensures Substitute("collection12_users", CollectionRef, 0) == "?users"
  {
    var s := "collection12_users";
    assert s[..10] == "collection";
    assert CollectionAt(s, 0, 13);
    SubstituteSplice(s, CollectionRef, 0, 0, 13);
    RestUnmasked();
    assert "?" + "users" == "?users";
  }

  /** Nothing after the collection prefix matches. */
  lemma RestUnmasked()
    ensures Substitute("collection12_users", CollectionRef, 13) == "users"
  {
    var s := "collection12_users";
    NoMatchInAll(s, CollectionRef, 13, |s|);
    SubstituteWithoutMatch(s, CollectionRef, 13);
    assert s[13..] == "users";
  }

  /** `simplify_query(query)` */
  function SimplifyQuery(query: string): (r: string)
    ensures |r| <= |query|
    ensures r == [] <==> AllSpace(query)
    ensures Trimmed(r) && SingleSpaced(r)
  {
    var a := CollapseSpaces(Strip(query));
    CollapseStripped(query);
    var b := Substitute(a, ParamToken, 0);
    MaskingKeepsShape(a, ParamToken);
    MaskingKeepsShape(b, CollectionRef);
    Substitute(b, CollectionRef, 0)
  }

  /** The first substitution's result is stripped and single-spaced, and empty only for a blank query. */
  lemma CollapseStripped(query: string)
    ensures var a := CollapseSpaces(Strip(query));
            |a| <= |query| && (a == [] <==> AllSpace(query)) && Trimmed(a) && SingleSpaced(a)
  {
    CollapseEnds(Strip(query));
    CollapseSingleSpaced(Strip(query));
  }

  /** Masking a stripped, single-spaced text leaves it stripped and single-spaced. */
  lemma MaskingKeepsShape(s: string, pat: Pattern)
    requires Trimmed(s) && SingleSpaced(s)
    ensures var r := Substitute(s, pat, 0);
            |r| <= |s| && (r == [] <==> s == []) && Trimmed(r) && SingleSpaced(r)
  {
    SubstituteKeepsSpacing(s, pat, 0);
    SubstituteEnds(s, pat, 0);
  }

  /** A query with nothing to mask is only stripped and re-spaced. */
  lemma SimplifyWithoutMatches(query: string)
    requires var a := CollapseSpaces(Strip(query));
             NoMatchIn(a, ParamToken, 0, |a|) && NoMatchIn(a, CollectionRef, 0, |a|)
    ensures SimplifyQuery(query) == CollapseSpaces(Strip(query))
  {
    var a := CollapseSpaces(Strip(query));
    SubstituteWithoutMatch(a, ParamToken, 0);
    assert a[0..] == a;
    SubstituteWithoutMatch(a, CollectionRef, 0);
  }

  // ---------------------------------------------------------------------------
  // generate_natural_language
  // ---------------------------------------------------------------------------

  /** A match of `from\s+([\w.]+)`: where it starts and the bounds of its group. */
  datatype Capture = Capture(at: nat, lo: nat, hi: nat)

  /** The match of `from\s+([\w.]+)` that starts at `i`, if any (no backtracking helps it). */
  function CaptureAt(s: string, i: nat): (r: Option<Capture>)
    requires i <= |s|
    ensures r.Some? ==>
              && r.value.at == i && OccursAt(s, "from", i)
              && i + 4 < r.value.lo < r.value.hi <= |s|
              && (forall k | i + 4 <= k < r.value.lo :: IsSpace(s[k]))
              && (forall k | r.value.lo <= k < r.value.hi :: InClass(s[k], WordOrDot))
              && (r.value.hi == |s| || !InClass(s[r.value.hi], WordOrDot))
  {
    if OccursAt(s, "from", i) then
      var j := RunEnd(s, i + 4, Space);
      var e := RunEnd(s, j, WordOrDot);
      if j > i + 4 && e > j then Some(Capture(i, j, e)) else None
    else None
  }

  /**
   * The converse: a `from` followed by whitespace and then a word character
   * or dot is a match, and its group starts right after the whitespace.
   */
  lemma CaptureAtComplete(s: string, i: nat, j: nat)
    requires OccursAt(s, "from", i) && i + 4 < j < |s|
    requires forall k | i + 4 <= k < j :: IsSpace(s[k])
    requires InClass(s[j], WordOrDot)
    ensures CaptureAt(s, i).Some? && CaptureAt(s, i).value.lo == j
  {
    RunEndUnique(s, i + 4, Space, j);
  }

  /** `re.search(r'from\s+([\w.]+)', s[i..])`: the leftmost match. */
  function FirstCapture(s: string, i: nat): (r: Option<Capture>)
    requires i <= |s|
    ensures r.Some? ==> i <= r.value.at <= |s| && CaptureAt(s, r.value.at) == r
    ensures r.Some? ==> forall k | i <= k < r.value.at :: CaptureAt(s, k).None?
    ensures r.None? ==> forall k | i <= k <= |s| :: CaptureAt(s, k).None?
    decreases |s| - i
  {
    if CaptureAt(s, i).Some? then CaptureAt(s, i)
    else if i == |s| then None
    else FirstCapture(s, i + 1)
  }

  /** `table.group(1)` of the search, or `None` when the search finds nothing. */
  function FromTable(s: string): (r: Option<string>)
    ensures r.None? <==> FirstCapture(s, 0).None?
    ensures r.Some? ==> var c := FirstCapture(s, 0).value; r.value == s[c.lo..c.hi]
    ensures r.Some? ==> r.value != [] && forall k | 0 <= k < |r.value| :: InClass(r.value[k], WordOrDot)
    ensures r.Some? ==> Contains(s, "from")
  {
    match FirstCapture(s, 0)
    case None => None
    case Some(c) =>
      ContainsAt(s, "from", c.at);
      Some(s[c.lo..c.hi])
  }

  /** The name captured from a lower-cased query has no upper-case letter. */
  lemma FromLowerHasNoUpper(query: string)
    ensures FromTable(Lower(query)).Some? ==> NoUpper(FromTable(Lower(query)).value)
  {
    var ql := Lower(query);
    if FromTable(ql).Some? {
      var c := FirstCapture(ql, 0).value;
      var t := FromTable(ql).value;
      forall k | 0 <= k < |t| ensures !IsUpper(t[k]) {
        assert t[k] == ql[c.lo + k] == LowerChar(query[c.lo + k]);
      }
    }
  }

  /**
   * `generate_natural_language(query)`: once the query names a table after a
   * `from`, the first template whose keywords occur in the lower-cased query
   * is the one filled in, in the order maximum, left join, conditions, all;
   * without a table the fallback sentence is returned.
   */
  function GenerateNaturalLanguage(query: string): (r: string)
    ensures var ql := Lower(query);
            FromTable(ql).None? ==> r == "Execute SQL query"
    ensures var ql := Lower(query);
            FromTable(ql).Some? ==>
              var t := FromTable(ql).value;
              var max := Contains(ql, "select max");
              var join := Contains(ql, "select a from") && Contains(ql, "left join");
              var cond := Contains(ql, "select") && Contains(ql, "where");
              && (r == "Get maximum value from " + t <==> max)
              && (r == "Get records from " + t + " with left join" <==> !max && join)
              && (r == "Find records from " + t + " with conditions" <==> !max && !join && cond)
              && (r == "Get all from " + t <==> !max && !join && !cond && Contains(ql, "select"))
  {
    var ql := Lower(query);
    if FromTable(ql).Some? then
      TemplatesDiffer(FromTable(ql).value);
      Describe(ql)
    else
      Describe(ql)
  }

  /** In `select * from users` the first match is the `from` at 9, with group `users`. */
  lemma CaptureExample(s: string)
    requires s == "select * from users"
    ensures FirstCapture(s, 0) == Some(Capture(9, 14, 19))
  {
    NoFromBefore(s);
    assert s[9..13] == "from";
    CaptureAtComplete(s, 9, 14);
    GroupRunExample(s);
  }

  lemma NoFromBefore(s: string)
    requires s == "select * from users"
    ensures forall k | 0 <= k < 9 :: CaptureAt(s, k).None?
  {
    var p := s[..9];
    assert p == "select * ";
    assert Avoids(p, 'f');
    forall k | 0 <= k < 9 ensures CaptureAt(s, k).None? {
      assert s[k..k + 4][0] == s[k] == p[k];
    }
  }

  lemma GroupRunExample(s: string)
    requires s == "select * from users"
    ensures RunEnd(s, 14, WordOrDot) == 19
  {
    var g := s[14..];
    assert g == "users";
    assert forall k | 0 <= k < 5 :: IsLowerLetter(g[k]);
    assert forall k | 14 <= k < 19 :: s[k] == g[k - 14];
    RunEndUnique(s, 14, WordOrDot, 19);
  }

  /** `select * from users` names the table `users` and reads as a plain select from it. */
  lemma DescribeExample(s: string)
    requires s == "select * from users"
    ensures FromTable(s) == Some("users")
    ensures Describe(s) == "Get all from users"
  {
    CaptureExample(s);
    assert s[14..19] == "users";
    SelectFromExample(s);
    NoMaxJoinWhere(s);
  }

  lemma SelectFromExample(s: string)
    requires s == "select * from users"
    ensures Contains(s, "select") && Contains(s, "from")
  {
    assert s[..6] == "select";
    ContainsAt(s, "select", 0);
    assert s[9..13] == "from";
    ContainsAt(s, "from", 9);
  }

  /** The query has no `x`, `a` or `w`, so no `select max`, `select a from` or `where`. */
  lemma NoMaxJoinWhere(s: string)
    requires s == "select * from users"
    ensures !Contains(s, "select max") && !Contains(s, "select a from") && !Contains(s, "where")
  {
    assert Avoids(s, 'x') && Avoids(s, 'a') && Avoids(s, 'w');
    AvoidedCharExcludes(s, "select max", 9);
    AvoidedCharExcludes(s, "select a from", 7);
    AvoidedCharExcludes(s, "where", 0);
  }

  /** The five sentences are told apart by their first or fifth character. */
  lemma TemplatesDiffer(t: string)
    ensures var e := "Execute SQL query";
            var m := "Get maximum value from " + t;
            var j := "Get records from " + t + " with left join";
            var c := "Find records from " + t + " with conditions";
            var a := "Get all from " + t;
            e[0] == 'E' && m[0] == 'G' && j[0] == 'G' && c[0] == 'F' && a[0] == 'G'
            && m[4] == 'm' && j[4] == 'r' && a[4] == 'a'
  {
  }

  /** The cascade of `generate_natural_language`, on the lower-cased query `ql`. */
  function Describe(ql: string): (r: string)
    ensures r == "Execute SQL query"
            || (FromTable(ql).Some?
                && var t := FromTable(ql).value;
                   r in {"Get maximum value from " + t, "Get records from " + t + " with left join",
                         "Find records from " + t + " with conditions", "Get all from " + t})
  {
    var t := FromTable(ql);
    if Contains(ql, "select max") && Contains(ql, "from") && t.Some? then
      "Get maximum value from " + t.value
    else if Contains(ql, "select a from") && Contains(ql, "left join") && t.Some? then
      "Get records from " + t.value + " with left join"
    else if Contains(ql, "select") && Contains(ql, "where") && t.Some? then
      "Find records from " + t.value + " with conditions"
    else if Contains(ql, "select") && Contains(ql, "from") && t.Some? then
      "Get all from " + t.value
    else
      "Execute SQL query"
  }

  /** The description depends on the query only through its lower-cased text. */
  lemma DescriptionIgnoresCase(query: string)
    ensures GenerateNaturalLanguage(Lower(query)) == GenerateNaturalLanguage(query)
  {
    LowerIdempotent(query);
  }

  /** The fallback sentence is given exactly when there is no `select` or no `from <name>`. */
  lemma FallbackExactly(query: string)
    ensures var ql := Lower(query);
            (GenerateNaturalLanguage(query) == "Execute SQL query") <==> (FromTable(ql).None? || !Contains(ql, "select"))
  {
    var ql := Lower(query);
    assert "select" + " max" == "select max";
    assert "select" + " a from" == "select a from";
    if Contains(ql, "select max") { ContainsPrefixOf(ql, "select", " max"); }
    if Contains(ql, "select a from") { ContainsPrefixOf(ql, "select", " a from"); }
    var r := Describe(ql);
    assert r != "Execute SQL query" <== r[0] != 'E';
  }

  /** A `select max` query with a table is always described as a maximum, whatever else it holds. */
  lemma MaximumComesFirst(query: string)
    requires Contains(Lower(query), "select max") && FromTable(Lower(query)).Some?
    ensures GenerateNaturalLanguage(query) == "Get maximum value from " + FromTable(Lower(query)).value
  {
  }
}
