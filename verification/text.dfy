/** The JavaScript string primitives the lessons rely on: the `\s` character class,
    `toLowerCase`, `trim`, `split(/\s+/)`, `split(' ')` and `includes`. */
module Text {

  /** The characters of ECMAScript's `\s` class (WhiteSpace and LineTerminator);
      `String.prototype.trim` removes exactly these. */
  predicate IsSpace(c: char) {
    || c == ' ' || c == '\t' || c == '\n' || c == '\r'
    || c == '\U{000B}' || c == '\U{000C}' || c == '\U{00A0}' || c == '\U{1680}'
    || ('\U{2000}' <= c <= '\U{200A}')
    || c == '\U{2028}' || c == '\U{2029}' || c == '\U{202F}' || c == '\U{205F}'
    || c == '\U{3000}' || c == '\U{FEFF}'
  }

  predicate IsUpper(c: char) {
    'A' <= c <= 'Z'
  }

  /** `toLowerCase` restricted to ASCII letters; every other character is kept. */
  function LowerChar(c: char): (r: char)
    ensures !IsUpper(r)
    ensures IsSpace(r) <==> IsSpace(c)
    ensures !IsUpper(c) ==> r == c
  {
    if IsUpper(c) then (c as int + 32) as char else c
  }

  /** `s.toLowerCase()`: length preserving, character by character. */
  function Lower(s: string): string {
    seq(|s|, i requires 0 <= i < |s| => LowerChar(s[i]))
  }

  predicate IsBlank(s: string) {
    forall i :: 0 <= i < |s| ==> IsSpace(s[i])
  }

  // ---------------------------------------------------------------------------
  // trim

  function TrimStart(s: string): (r: string)
    ensures |r| <= |s|
    ensures r == [] || !IsSpace(r[0])
    decreases |s|
  {
    if |s| > 0 && IsSpace(s[0]) then TrimStart(s[1..]) else s
  }

  function TrimEnd(s: string): string
    decreases |s|
  {
    if |s| > 0 && IsSpace(s[|s| - 1]) then TrimEnd(s[..|s| - 1]) else s
  }

  /** `s.trim()`. */
  function Trim(s: string): string {
    TrimEnd(TrimStart(s))
  }

  lemma {:induction false} TrimStartEmpty(s: string)
    ensures TrimStart(s) == [] <==> IsBlank(s)
    decreases |s|
  {
    if |s| > 0 && IsSpace(s[0]) {
      TrimStartEmpty(s[1..]);
      assert IsBlank(s) <==> IsBlank(s[1..]) by {
        if IsBlank(s[1..]) {
          forall i | 0 <= i < |s| ensures IsSpace(s[i]) {
            if i > 0 { assert s[i] == s[1..][i - 1]; }
          }
        }
      }
    }
  }

  lemma {:induction false} TrimEndEmpty(s: string)
    ensures TrimEnd(s) == [] <==> IsBlank(s)
    decreases |s|
  {
    if |s| > 0 && IsSpace(s[|s| - 1]) {
      var p := s[..|s| - 1];
      TrimEndEmpty(p);
      assert IsBlank(s) <==> IsBlank(p) by {
        if IsBlank(p) {
          forall i | 0 <= i < |s| ensures IsSpace(s[i]) {
            if i < |s| - 1 { assert s[i] == p[i]; }
          }
        }
      }
    }
  }

  /** `!s.trim()` holds exactly when every character of `s` is white space. */
  lemma TrimEmptyIffBlank(s: string)
    ensures Trim(s) == [] <==> IsBlank(s)
  {
    TrimStartEmpty(s);
    var t := TrimStart(s);
    TrimEndEmpty(t);
  }

  // ---------------------------------------------------------------------------
  // split(/\s+/)

  /** Length of the longest prefix of `s` whose characters are all white space
      (`space`) or all non-white-space (`!space`). */
  function Span(s: string, space: bool): (n: nat)
    ensures n <= |s|
    ensures forall k :: 0 <= k < n ==> IsSpace(s[k]) == space
    ensures n < |s| ==> IsSpace(s[n]) != space
    decreases |s|
  {
    if |s| == 0 || IsSpace(s[0]) != space then 0 else 1 + Span(s[1..], space)
  }

  /** `s.split(/\s+/)`: the fields between maximal runs of white space. A leading or
      trailing run yields an empty first or last field, and `""` yields `[""]`. */
  function SplitWs(s: string): (fields: seq<string>)
    ensures |fields| >= 1
    ensures forall f :: f in fields ==> forall k :: 0 <= k < |f| ==> !IsSpace(f[k]) && f[k] in s
    decreases |s|
  {
    var i := Span(s, false);
    if i == |s| then [s]
    else
      assert s[i..][0] == s[i];
      var j := i + Span(s[i..], true);
      var rest := SplitWs(s[j..]);
      assert forall f :: f in rest ==> forall k :: 0 <= k < |f| ==> f[k] in s by {
        forall f, k | f in rest && 0 <= k < |f| ensures f[k] in s {
          var m :| 0 <= m < |s[j..]| && s[j..][m] == f[k];
          assert s[j + m] == f[k];
        }
      }
      [s[..i]] + rest
  }

  /** `.filter(word => word.length > 0)`. */
  function NonEmpty(fields: seq<string>): (r: seq<string>)
    ensures |r| <= |fields|
    ensures forall f :: f in r <==> f in fields && f != ""
  {
    if |fields| == 0 then []
    else
      var rest := NonEmpty(fields[1..]);
      assert forall f :: f in fields <==> f == fields[0] || f in fields[1..];
      if fields[0] == "" then rest else [fields[0]] + rest
  }

  /** `text.toLowerCase().split(/\s+/).filter(word => word.length > 0)`. */
  function Tokens(s: string): (r: seq<string>)
    ensures forall t :: t in r ==> t != ""
    ensures forall t :: t in r ==> forall k :: 0 <= k < |t| ==> !IsSpace(t[k]) && !IsUpper(t[k])
  {
    NonEmpty(SplitWs(Lower(s)))
  }

  /** The unfiltered field count exceeds the token count by one for a leading and one
      for a trailing white-space run. */
  lemma {:induction false} FieldCount(s: string)
    requires |s| > 0
    ensures |SplitWs(s)| == |NonEmpty(SplitWs(s))|
                            + (if IsSpace(s[0]) then 1 else 0)
                            + (if IsSpace(s[|s| - 1]) then 1 else 0)
    decreases |s|
  {
    var i := Span(s, false);
    if i < |s| {
      assert s[i..][0] == s[i];
      var j := i + Span(s[i..], true);
      var t := s[j..];
      SplitWsStep(s, i, j);
      NonEmptyCons(s[..i], SplitWs(t));
      assert IsSpace(s[0]) <==> i == 0;
      if |t| == 0 {
        assert IsSpace(s[|s| - 1]) by { assert s[|s| - 1] == s[i..][j - 1 - i]; }
      } else {
        FieldCount(t);
        assert !IsSpace(t[0]) by { assert t[0] == s[i..][j - i]; }
        assert t[|t| - 1] == s[|s| - 1];
      }
    }
  }

  lemma {:induction false} SpanLower(s: string, space: bool)
    ensures Span(Lower(s), space) == Span(s, space)
    decreases |s|
  {
    if |s| > 0 {
      assert Lower(s)[1..] == Lower(s[1..]);
      SpanLower(s[1..], space);
    }
  }

  /** Lowercasing does not move white space, so it keeps the field count of `split(/\s+/)`. */
  lemma {:induction false} SplitWsLowerCount(s: string)
    ensures |SplitWs(Lower(s))| == |SplitWs(s)|
    decreases |s|
  {
    var i := Span(s, false);
    SpanLower(s, false);
    if i < |s| {
      assert s[i..][0] == s[i];
      var j := i + Span(s[i..], true);
      LowerDrop(s, i);
      SpanLower(s[i..], true);
      LowerDrop(s, j);
      SplitWsStep(s, i, j);
      SplitWsStep(Lower(s), i, j);
      SplitWsLowerCount(s[j..]);
    }
  }

  lemma LowerDrop(s: string, k: nat)
    requires k <= |s|
    ensures Lower(s)[k..] == Lower(s[k..])
  {
  }

  /** The number of tokens `compareWords` sees is the field count of the raw text
      minus the empty fields a leading or trailing white-space run produces. */
  lemma TokenCount(s: string)
    requires |s| > 0
    ensures |SplitWs(s)| == |Tokens(s)|
                            + (if IsSpace(s[0]) then 1 else 0)
                            + (if IsSpace(s[|s| - 1]) then 1 else 0)
  {
    SplitWsLowerCount(s);
    FieldCount(Lower(s));
  }

  /** Lowercasing works character by character, so it distributes over concatenation. */
  lemma LowerAppend(a: string, b: string)
    ensures Lower(a + b) == Lower(a) + Lower(b)
  {
    assert forall k :: 0 <= k < |a + b| ==> Lower(a + b)[k] == (Lower(a) + Lower(b))[k];
  }

  /** `Span` is pinned down by its contract: the one run length that ends where the kind
      of character changes. */
  lemma SpanUnique(s: string, space: bool, n: nat)
    requires n <= |s|
    requires forall k :: 0 <= k < n ==> IsSpace(s[k]) == space
    requires n < |s| ==> IsSpace(s[n]) != space
    ensures Span(s, space) == n
  {
  }

  /** One unfolding of `SplitWs` past a field that white space ends. */
  lemma SplitWsStep(s: string, i: nat, j: nat)
    requires i == Span(s, false) && i < |s| && j == i + Span(s[i..], true)
    ensures SplitWs(s) == [s[..i]] + SplitWs(s[j..])
  {
    var fields := SplitWs(s);
  }

  /** A text that starts with white space splits into an empty field and the fields
      after that run. */
  lemma SplitWsLeadingSpace(s: string)
    requires |s| > 0 && IsSpace(s[0])
    ensures SplitWs(s) == [""] + SplitWs(s[Span(s, true)..])
  {
    SpanUnique(s, false, 0);
    assert s[0..] == s;
    SplitWsStep(s, 0, Span(s, true));
  }

  lemma SpanAtLeast(s: string, space: bool, k: nat)
    requires k <= |s|
    requires forall m :: 0 <= m < k ==> IsSpace(s[m]) == space
    ensures Span(s, space) >= k
  {
  }

  lemma NonEmptyCons(f: string, rest: seq<string>)
    ensures NonEmpty([f] + rest) == if f == "" then NonEmpty(rest) else [f] + NonEmpty(rest)
  {
    assert ([f] + rest)[1..] == rest;
  }

  /** Entering a run `k` characters in leaves `k` fewer characters of it. */
  lemma SpanDrop(s: string, space: bool, k: nat)
    requires k <= Span(s, space)
    ensures Span(s[k..], space) == Span(s, space) - k
  {
    var t := s[k..];
    assert forall m :: 0 <= m < |t| ==> t[m] == s[k + m];
    SpanUnique(t, space, Span(s, space) - k);
  }

  /** Inside a white-space run the fields that follow do not depend on where the run
      is entered. */
  lemma FieldsInsideRun(s: string, k: nat)
    requires 0 < k < Span(s, true)
    ensures NonEmpty(SplitWs(s[k..])) == NonEmpty(SplitWs(s[Span(s, true)..]))
  {
    var j := Span(s, true);
    var t := s[k..];
    SpanDrop(s, true, k);
    assert t[j - k..] == s[j..];
    FieldsAfterRun(t);
  }

  /** A leading white-space run yields one empty field, which the filter drops. */
  lemma FieldsAfterRun(s: string)
    requires Span(s, true) > 0
    ensures NonEmpty(SplitWs(s)) == NonEmpty(SplitWs(s[Span(s, true)..]))
  {
    var rest := SplitWs(s[Span(s, true)..]);
    assert IsSpace(s[0]);
    SplitWsLeadingSpace(s);
    NonEmptyCons("", rest);
  }

  /** A white-space prefix contributes no token. */
  lemma FieldsSkipSpace(s: string, k: nat)
    requires k <= Span(s, true)
    ensures NonEmpty(SplitWs(s)) == NonEmpty(SplitWs(s[k..]))
  {
    if 0 < k {
      FieldsAfterRun(s);
      if k < Span(s, true) {
        FieldsInsideRun(s, k);
      }
    }
  }

  /** A text without white space is a single token. */
  lemma FieldsSingleWord(w: string)
    requires w != [] && Span(w, false) == |w|
    ensures NonEmpty(SplitWs(w)) == [w]
  {
    calc {
      NonEmpty(SplitWs(w));
      NonEmpty([w] + []);
      { NonEmptyCons(w, []); }
      [w];
    }
  }

  /** A run that white space (or the end of the text) closes keeps its length when
      the rest of the text is appended. */
  lemma SpanAppend(w: string, y: string)
    requires Span(w, false) == |w|
    requires y == [] || IsSpace(y[0])
    ensures Span(w + y, false) == |w|
  {
    var s := w + y;
    assert forall m :: 0 <= m < |w| ==> s[m] == w[m];
    SpanUnique(s, false, |w|);
  }

  /** A word closed by white space is the first field; the fields after the run follow. */
  lemma SplitWsAfterWord(w: string, y: string)
    requires w != [] && Span(w, false) == |w|
    requires y != [] && IsSpace(y[0])
    ensures SplitWs(w + y) == [w] + SplitWs(y[Span(y, true)..])
  {
    var s, n := w + y, Span(y, true);
    SpanAppend(w, y);
    assert s[|w|..] == y;
    SplitWsStep(s, |w|, |w| + n);
    var head, tail := s[..|w|], s[|w| + n..];
    assert SplitWs(s) == [head] + SplitWs(tail);
    assert head == w;
    assert tail == y[n..];
  }

  /** The empty text splits into one empty field and so has no tokens. */
  lemma FieldsEmpty()
    ensures NonEmpty(SplitWs("")) == []
  {
    NonEmptyCons("", []);
    assert [""] + [] == SplitWs("");
  }

  /** A maximal run of non-white-space characters is one field, kept by the filter. */
  lemma FieldsWord(w: string, y: string)
    requires w != [] && Span(w, false) == |w|
    requires y == [] || IsSpace(y[0])
    ensures NonEmpty(SplitWs(w + y)) == [w] + NonEmpty(SplitWs(y))
  {
    if y == [] {
      assert w + y == w;
      FieldsSingleWord(w);
      FieldsEmpty();
    } else {
      var rest := SplitWs(y[Span(y, true)..]);
      SplitWsAfterWord(w, y);
      NonEmptyCons(w, rest);
      FieldsSkipSpace(y, Span(y, true));
    }
  }

  /** The empty text has no tokens. */
  lemma TokensEmpty()
    ensures Tokens("") == []
  {
    assert Lower("") == "";
    FieldsEmpty();
  }

  /** White space in front of the text adds no token. */
  lemma TokensSkipSpace(sp: string, y: string)
    requires forall m :: 0 <= m < |sp| ==> IsSpace(sp[m])
    ensures Tokens(sp + y) == Tokens(y)
  {
    var s := Lower(sp) + Lower(y);
    LowerAppend(sp, y);
    assert s[|sp|..] == Lower(y);
    assert forall m :: 0 <= m < |sp| ==> IsSpace(s[m]) by {
      forall m | 0 <= m < |sp| ensures IsSpace(s[m]) {
        assert s[m] == LowerChar(sp[m]);
      }
    }
    SpanAtLeast(s, true, |sp|);
    FieldsSkipSpace(s, |sp|);
  }

  /** A maximal run of non-white-space characters in front of the text is the first
      token, lowercased. With `TokensEmpty` and `TokensSkipSpace` this determines
      `Tokens` on every text. */
  lemma TokensWord(w: string, y: string)
    requires w != [] && forall m :: 0 <= m < |w| ==> !IsSpace(w[m])
    requires y == [] || IsSpace(y[0])
    ensures Tokens(w + y) == [Lower(w)] + Tokens(y)
  {
    LowerAppend(w, y);
    SpanUnique(Lower(w), false, |w|);
    FieldsWord(Lower(w), Lower(y));
  }

  /** The leading word of `a` and the text after it. */
  lemma LeadingWord(a: string) returns (w: string, rest: string)
    requires a != [] && !IsSpace(a[0])
    ensures a == w + rest
    ensures w != [] && Span(w, false) == |w|
    ensures rest == [] || IsSpace(rest[0])
  {
    var n := Span(a, false);
    w, rest := a[..n], a[n..];
    assert a == w + rest;
    SpanUnique(w, false, n);
  }

  /** Dropping a leading white-space character of `a` changes neither the fields of `a`
      nor those of `a` joined to `b`. */
  lemma FieldsConcatSpace(a: string, c: char, b: string)
    requires a != [] && IsSpace(a[0])
    ensures NonEmpty(SplitWs(a)) == NonEmpty(SplitWs(a[1..]))
    ensures NonEmpty(SplitWs(a + [c] + b)) == NonEmpty(SplitWs(a[1..] + [c] + b))
  {
    DropFirstOfConcat(a, c, b);
    FieldsDropSpace(a);
    FieldsDropSpace(a + [c] + b);
  }

  lemma DropFirstOfConcat(a: string, c: char, b: string)
    requires a != []
    ensures (a + [c] + b)[0] == a[0]
    ensures (a + [c] + b)[1..] == a[1..] + [c] + b
  {
  }

  /** One leading white-space character adds no token. */
  lemma FieldsDropSpace(s: string)
    requires s != [] && IsSpace(s[0])
    ensures NonEmpty(SplitWs(s)) == NonEmpty(SplitWs(s[1..]))
  {
    FieldsSkipSpace(s, 1);
  }

  lemma FieldsConcatWord(w: string, rest: string, c: char, b: string)
    requires IsSpace(c)
    requires w != [] && Span(w, false) == |w|
    requires rest == [] || IsSpace(rest[0])
    requires NonEmpty(SplitWs(rest + [c] + b)) == NonEmpty(SplitWs(rest)) + NonEmpty(SplitWs(b))
    ensures NonEmpty(SplitWs(w + rest + [c] + b)) == NonEmpty(SplitWs(w + rest)) + NonEmpty(SplitWs(b))
  {
    FieldsWordBeforeSpace(w, rest, c, b);
    FieldsWord(w, rest);
    AppendAssoc([w], NonEmpty(SplitWs(rest)), NonEmpty(SplitWs(b)));
  }

  lemma FieldsWordBeforeSpace(w: string, rest: string, c: char, b: string)
    requires IsSpace(c)
    requires w != [] && Span(w, false) == |w|
    requires rest == [] || IsSpace(rest[0])
    ensures NonEmpty(SplitWs(w + rest + [c] + b)) == [w] + NonEmpty(SplitWs(rest + [c] + b))
  {
    var tail := rest + [c] + b;
    assert w + rest + [c] + b == w + tail;
    assert tail[0] == if rest == [] then c else rest[0];
    FieldsWord(w, tail);
  }

  lemma AppendAssoc<T>(x: seq<T>, y: seq<T>, z: seq<T>)
    ensures x + (y + z) == (x + y) + z
  {
  }

  /** `split(/\s+/)` followed by the filter, on two texts joined by white space. */
  lemma {:induction false} FieldsConcat(a: string, c: char, b: string)
    requires IsSpace(c)
    ensures NonEmpty(SplitWs(a + [c] + b)) == NonEmpty(SplitWs(a)) + NonEmpty(SplitWs(b))
    decreases |a|
  {
    if a == [] {
      FieldsEmpty();
      assert a + [c] + b == [c] + b;
      assert ([c] + b)[1..] == b;
      FieldsSkipSpace([c] + b, 1);
    } else if IsSpace(a[0]) {
      FieldsConcat(a[1..], c, b);
      FieldsConcatSpace(a, c, b);
    } else {
      var w, rest := LeadingWord(a);
      FieldsConcat(rest, c, b);
      FieldsConcatWord(w, rest, c, b);
    }
  }

  /** A non-empty text without white space is exactly one token: itself, lowercased. */
  lemma TokensSingleWord(w: string)
    requires w != [] && forall m :: 0 <= m < |w| ==> !IsSpace(w[m])
    ensures Tokens(w) == [Lower(w)]
  {
    assert w + [] == w;
    TokensWord(w, []);
    TokensEmpty();
  }

  /** Joining two texts with a white-space character concatenates their token lists. */
  lemma TokensConcat(a: string, c: char, b: string)
    requires IsSpace(c)
    ensures Tokens(a + [c] + b) == Tokens(a) + Tokens(b)
  {
    LowerAppend(a + [c], b);
    LowerAppend(a, [c]);
    assert Lower([c]) == [LowerChar(c)];
    FieldsConcat(Lower(a), LowerChar(c), Lower(b));
  }

  // ---------------------------------------------------------------------------
  // split(' ')

  /** `s.split(sep)` for a one-character separator: every occurrence separates two
      fields, so repeated, leading and trailing separators yield empty fields. */
  function SplitOn(s: string, sep: char): (fields: seq<string>)
    ensures |fields| == multiset(s)[sep] + 1
    ensures forall f :: f in fields ==> sep !in f
    decreases |s|
  {
    if |s| == 0 then [""]
    else
      assert s == [s[0]] + s[1..];
      var rest := SplitOn(s[1..], sep);
      if s[0] == sep then [""] + rest
      else
        assert forall f :: f in rest[1..] ==> f in rest;
        [[s[0]] + rest[0]] + rest[1..]
  }

  /** `fields.join(sep)`. */
  function Join(fields: seq<string>, sep: char): string
    requires |fields| >= 1
  {
    if |fields| == 1 then fields[0] else fields[0] + [sep] + Join(fields[1..], sep)
  }

  /** Splitting loses nothing: joining the fields with the separator gives the text back. */
  lemma {:induction false} SplitOnJoin(s: string, sep: char)
    ensures Join(SplitOn(s, sep), sep) == s
    decreases |s|
  {
    if |s| > 0 {
      var rest := SplitOn(s[1..], sep);
      SplitOnJoin(s[1..], sep);
      if s[0] == sep {
        assert ([""] + rest)[1..] == rest;
      } else if |rest| > 1 {
        var fields := [[s[0]] + rest[0]] + rest[1..];
        assert fields[1..] == rest[1..];
      }
    }
  }

  // ---------------------------------------------------------------------------
  // includes

  predicate IsPrefix(p: string, s: string) {
    |p| <= |s| && s[..|p|] == p
  }

  /** `s.includes(sub)`; the empty string is included in every string. */
  predicate Contains(s: string, sub: string)
    decreases |s|
  {
    IsPrefix(sub, s) || (|s| > 0 && Contains(s[1..], sub))
  }

  predicate OccursAt(s: string, sub: string, i: nat) {
    i + |sub| <= |s| && s[i..i + |sub|] == sub
  }

  /** `includes` holds exactly when `sub` occurs as a contiguous slice of `s`. */
  lemma {:induction false} ContainsIffOccurs(s: string, sub: string)
    ensures Contains(s, sub) <==> exists i: nat :: OccursAt(s, sub, i)
    decreases |s|
  {
    assert OccursAt(s, sub, 0) <==> IsPrefix(sub, s);
    if |s| == 0 {
      forall i: nat ensures OccursAt(s, sub, i) ==> i == 0 { }
    } else {
      ContainsIffOccurs(s[1..], sub);
      forall i: nat | i > 0 ensures OccursAt(s, sub, i) <==> OccursAt(s[1..], sub, i - 1) {
        if i + |sub| <= |s| {
          assert s[1..][i - 1..i - 1 + |sub|] == s[i..i + |sub|];
        }
      }
      if Contains(s[1..], sub) {
        var i: nat :| OccursAt(s[1..], sub, i);
        assert OccursAt(s, sub, i + 1);
      }
    }
  }
}
