/** String operations the post list relies on: JavaScript's `toLowerCase`,
    `includes`, and the category token `s.toLowerCase().replace(/\s+/g, '-')`. */
module Text {

  /** JavaScript's `\s` character class (ECMAScript WhiteSpace and LineTerminator). */
  predicate IsWhitespace(c: char) {
    || c == ' ' || c == '\t' || c == '\n' || c == '\r' || c == '\U{B}' || c == '\U{C}'
    || c == '\U{A0}' || c == '\U{1680}' || ('\U{2000}' <= c <= '\U{200A}')
    || c == '\U{2028}' || c == '\U{2029}' || c == '\U{202F}' || c == '\U{205F}'
    || c == '\U{3000}' || c == '\U{FEFF}'
  }

  predicate IsUpper(c: char) {
    'A' <= c <= 'Z'
  }

  /** Lower-cases one character (ASCII letters only). */
  function LowerChar(c: char): (r: char)
    ensures !IsUpper(r)
    ensures IsWhitespace(r) <==> IsWhitespace(c)
    ensures !IsUpper(c) ==> r == c
  {
    if IsUpper(c) then (c as int + 32) as char else c
  }

  /** `String.prototype.toLowerCase`, restricted to ASCII letters. */
  function ToLower(s: string): (r: string)
    ensures |r| == |s|
    ensures forall i :: 0 <= i < |r| ==> !IsUpper(r[i])
    ensures forall i :: 0 <= i < |r| ==> (IsWhitespace(r[i]) <==> IsWhitespace(s[i]))
    ensures forall i :: 0 <= i < |s| && IsUpper(s[i]) ==> r[i] as int == s[i] as int + 32
    ensures forall i :: 0 <= i < |s| && !IsUpper(s[i]) ==> r[i] == s[i]
  {
    seq(|s|, i requires 0 <= i < |s| => LowerChar(s[i]))
  }

  /** Lower-casing works character by character, so it distributes over concatenation. */
  lemma ToLowerAppend(x: string, y: string)
    ensures ToLower(x + y) == ToLower(x) + ToLower(y)
  {
    var l, r := ToLower(x + y), ToLower(x) + ToLower(y);
    forall i | 0 <= i < |l|
      ensures l[i] == r[i]
    {
      if i < |x| {
        assert (x + y)[i] == x[i];
      } else {
        assert (x + y)[i] == y[i - |x|];
      }
    }
  }

  /** Lower-casing twice is lower-casing once. */
  lemma ToLowerIdempotent(s: string)
    ensures ToLower(ToLower(s)) == ToLower(s)
  {
    var t := ToLower(s);
    assert forall i :: 0 <= i < |t| ==> ToLower(t)[i] == t[i];
  }

  predicate StartsWith(s: string, prefix: string) {
    |prefix| <= |s| && s[..|prefix|] == prefix
  }

  /** `s.includes(sub)`: some suffix of `s` starts with `sub`. */
  predicate Includes(s: string, sub: string)
    ensures Includes(s, sub) ==> |sub| <= |s|
    decreases |s|
  {
    StartsWith(s, sub) || (s != [] && Includes(s[1..], sub))
  }

  /** `sub` occurs in `s` at position `i`. */
  ghost predicate OccursAt(s: string, sub: string, i: int) {
    0 <= i && i + |sub| <= |s| && s[i..i + |sub|] == sub
  }

  /** `Includes` is exactly "occurs at some position". */
  lemma {:induction false} IncludesIff(s: string, sub: string)
    ensures Includes(s, sub) <==> exists i :: OccursAt(s, sub, i)
    decreases |s|
  {
    if StartsWith(s, sub) {
      assert OccursAt(s, sub, 0);
    } else if s == [] {
      assert forall i :: !OccursAt(s, sub, i);
    } else {
      IncludesIff(s[1..], sub);
      if Includes(s[1..], sub) {
        var i :| OccursAt(s[1..], sub, i);
        assert s[1..][i..i + |sub|] == s[i + 1..i + 1 + |sub|];
        assert OccursAt(s, sub, i + 1);
      } else {
        forall i | OccursAt(s, sub, i)
          ensures false
        {
          assert i != 0;
          assert s[1..][i - 1..i - 1 + |sub|] == s[i..i + |sub|];
          assert OccursAt(s[1..], sub, i - 1);
        }
      }
    }
  }

  /** The empty string is included in every string. */
  lemma IncludesEmpty(s: string)
    ensures Includes(s, "")
  {
    assert StartsWith(s, "");
  }

  ghost predicate WhitespaceFree(s: string) {
    forall i :: 0 <= i < |s| ==> !IsWhitespace(s[i])
  }

  ghost predicate AllWhitespace(s: string) {
    forall i :: 0 <= i < |s| ==> IsWhitespace(s[i])
  }

  /** `s.replace(/\s+/g, '-')`: every maximal run of whitespace becomes one '-'.
      A whitespace character followed by more whitespace contributes nothing;
      the last character of a run contributes the '-'. */
  function CollapseWhitespace(s: string): (r: string)
    ensures |r| <= |s|
  {
    if s == [] then []
    else if !IsWhitespace(s[0]) then [s[0]] + CollapseWhitespace(s[1..])
    else if |s| > 1 && IsWhitespace(s[1]) then CollapseWhitespace(s[1..])
    else "-" + CollapseWhitespace(s[1..])
  }

  /** Collapsing leaves no whitespace. */
  lemma {:induction false} CollapseRemovesWhitespace(s: string)
    ensures WhitespaceFree(CollapseWhitespace(s))
  {
    if s != [] {
      CollapseRemovesWhitespace(s[1..]);
    }
  }

  /** A string without whitespace is left as it is. */
  lemma {:induction false} CollapseWhitespaceFree(s: string)
    requires WhitespaceFree(s)
    ensures CollapseWhitespace(s) == s
  {
    if s != [] {
      CollapseWhitespaceFree(s[1..]);
    }
  }

  /** Collapsing is idempotent. */
  lemma CollapseIdempotent(s: string)
    ensures CollapseWhitespace(CollapseWhitespace(s)) == CollapseWhitespace(s)
  {
    CollapseRemovesWhitespace(s);
    CollapseWhitespaceFree(CollapseWhitespace(s));
  }

  /** Collapsing splits at a boundary whose left side ends in a non-whitespace character. */
  lemma {:induction false} CollapseAppend(x: string, y: string)
    requires x == [] || !IsWhitespace(x[|x| - 1])
    ensures CollapseWhitespace(x + y) == CollapseWhitespace(x) + CollapseWhitespace(y)
  {
    if x == [] {
      assert x + y == y;
    } else {
      assert (x + y)[0] == x[0] && (x + y)[1..] == x[1..] + y;
      CollapseAppend(x[1..], y);
      if IsWhitespace(x[0]) {
        assert (x + y)[1] == x[1];
      }
    }
  }

  /** A leading whitespace run collapses to a single '-'. */
  lemma {:induction false} CollapseLeadingRun(w: string, b: string)
    requires w != [] && AllWhitespace(w)
    requires b == [] || !IsWhitespace(b[0])
    ensures CollapseWhitespace(w + b) == "-" + CollapseWhitespace(b)
  {
    assert (w + b)[0] == w[0] && (w + b)[1..] == w[1..] + b;
    if |w| == 1 {
      assert w[1..] + b == b;
    } else {
      assert (w + b)[1] == w[1];
      CollapseLeadingRun(w[1..], b);
    }
  }

  /** Each maximal whitespace run is replaced by exactly one '-', and the text on
      either side of it is collapsed independently. */
  lemma {:induction false} CollapseRun(a: string, w: string, b: string)
    requires a == [] || !IsWhitespace(a[|a| - 1])
    requires w != [] && AllWhitespace(w)
    requires b == [] || !IsWhitespace(b[0])
    ensures CollapseWhitespace(a + w + b) == CollapseWhitespace(a) + "-" + CollapseWhitespace(b)
  {
    calc {
      CollapseWhitespace(a + w + b);
      { assert a + w + b == a + (w + b); }
      CollapseWhitespace(a + (w + b));
      { CollapseAppend(a, w + b); }
      CollapseWhitespace(a) + CollapseWhitespace(w + b);
      { CollapseLeadingRun(w, b); }
      CollapseWhitespace(a) + ("-" + CollapseWhitespace(b));
    }
  }

  /** The category token used by the editor and the preview:
      lower-cased, with each whitespace run replaced by '-'. */
  function CategoryToken(category: string): (r: string)
    ensures WhitespaceFree(r)
    ensures forall i :: 0 <= i < |r| ==> !IsUpper(r[i])
    ensures |r| <= |category|
  {
    var lower := ToLower(category);
    CollapseLower(lower);
    CollapseRemovesWhitespace(lower);
    CollapseWhitespace(lower)
  }

  /** Collapsing introduces no upper-case letter. */
  lemma {:induction false} CollapseLower(s: string)
    requires forall i :: 0 <= i < |s| ==> !IsUpper(s[i])
    ensures forall i :: 0 <= i < |CollapseWhitespace(s)| ==> !IsUpper(CollapseWhitespace(s)[i])
  {
    if s != [] {
      CollapseLower(s[1..]);
    }
  }

  /** A category without whitespace is only lower-cased. */
  lemma CategoryTokenWithoutWhitespace(category: string)
    requires WhitespaceFree(category)
    ensures CategoryToken(category) == ToLower(category)
  {
    CollapseWhitespaceFree(ToLower(category));
  }

  /** Each maximal whitespace run of the category becomes one '-', and the
      text on either side is normalised on its own. */
  lemma CategoryTokenRun(a: string, w: string, b: string)
    requires a == [] || !IsWhitespace(a[|a| - 1])
    requires w != [] && AllWhitespace(w)
    requires b == [] || !IsWhitespace(b[0])
    ensures CategoryToken(a + w + b) == CategoryToken(a) + "-" + CategoryToken(b)
  {
    ToLowerAppend(a, w);
    ToLowerAppend(a + w, b);
    var la, lw, lb := ToLower(a), ToLower(w), ToLower(b);
    assert ToLower(a + w + b) == la + lw + lb;
    CollapseRun(la, lw, lb);
  }

  /** Normalising a token again changes nothing. */
  lemma CategoryTokenIdempotent(category: string)
    ensures CategoryToken(CategoryToken(category)) == CategoryToken(category)
  {
    var t := CategoryToken(category);
    assert ToLower(t) == t;
    CollapseWhitespaceFree(t);
  }
  /** Code-point lexicographic comparison, the model's stand-in for
      `localeCompare`: negative, zero or positive as `a` sorts before, with or
      after `b`. */
  function LexCompare(a: string, b: string): (r: int)
    ensures -1 <= r <= 1
  {
    if a == [] && b == [] then 0
    else if a == [] then -1
    else if b == [] then 1
    else if a[0] < b[0] then -1
    else if b[0] < a[0] then 1
    else LexCompare(a[1..], b[1..])
  }

  /** The lexicographic order itself: `a` is a prefix of `b`, or the two first
      differ at a position where `a` has the smaller character. */
  ghost predicate LexLessEq(a: string, b: string) {
    || StartsWith(b, a)
    || exists k :: 0 <= k < |a| && k < |b| && a[..k] == b[..k] && a[k] < b[k]
  }

  /** Swapping the arguments flips the sign. */
  lemma {:induction false} LexCompareFlip(a: string, b: string)
    ensures LexCompare(b, a) == -LexCompare(a, b)
    decreases |a|
  {
    if a != [] && b != [] && a[0] == b[0] {
      LexCompareFlip(a[1..], b[1..]);
    }
  }

  /** Comparison says "equal" exactly for equal strings. */
  lemma {:induction false} LexCompareZero(a: string, b: string)
    ensures LexCompare(a, b) == 0 <==> a == b
    decreases |a|
  {
    if a != [] && b != [] && a[0] == b[0] {
      LexCompareZero(a[1..], b[1..]);
      assert a == [a[0]] + a[1..] && b == [b[0]] + b[1..];
    }
  }

  /** A non-positive comparison is exactly the lexicographic order. */
  lemma LexCompareOrder(a: string, b: string)
    ensures LexCompare(a, b) <= 0 <==> LexLessEq(a, b)
  {
    LexCompareOrderSound(a, b);
    LexCompareOrderComplete(a, b);
  }

  /** A non-positive comparison means `a` comes first in the lexicographic order. */
  lemma {:induction false} LexCompareOrderSound(a: string, b: string)
    ensures LexCompare(a, b) <= 0 ==> LexLessEq(a, b)
    decreases |a|
  {
    if a == [] {
      assert StartsWith(b, a);
    } else if b != [] && a[0] < b[0] {
      assert a[..0] == b[..0];
    } else if b != [] && a[0] == b[0] {
      var a', b' := a[1..], b[1..];
      LexCompareOrderSound(a', b');
      if LexCompare(a', b') <= 0 {
        if StartsWith(b', a') {
          assert b[..|a|] == [b[0]] + b'[..|a'|];
          assert a == [a[0]] + a';
        } else {
          var k :| 0 <= k < |a'| && k < |b'| && a'[..k] == b'[..k] && a'[k] < b'[k];
          assert a[..k + 1] == [a[0]] + a'[..k];
          assert b[..k + 1] == [b[0]] + b'[..k];
        }
      }
    }
  }

  /** When `a` comes first in the lexicographic order, the comparison is non-positive. */
  lemma {:induction false} LexCompareOrderComplete(a: string, b: string)
    ensures LexLessEq(a, b) ==> LexCompare(a, b) <= 0
    decreases |a|
  {
    if a != [] && b == [] {
      assert !StartsWith(b, a);
    } else if a != [] && a[0] == b[0] {
      var a', b' := a[1..], b[1..];
      LexCompareOrderComplete(a', b');
      if LexLessEq(a, b) {
        if StartsWith(b, a) {
          assert b'[..|a'|] == b[..|a|][1..];
          assert StartsWith(b', a');
        } else {
          var k :| 0 <= k < |a| && k < |b| && a[..k] == b[..k] && a[k] < b[k];
          assert k > 0;
          assert a'[..k - 1] == a[..k][1..];
          assert b'[..k - 1] == b[..k][1..];
        }
      }
    }
  }
}
