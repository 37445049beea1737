/**
  The string operations the components rely on, over `seq<char>`:
  `toLowerCase` (ASCII letters), `includes`/`indexOf` on a substring,
  `split` and `join` on a one-character separator, and the decimal
  rendering of a millisecond timestamp inside a template literal.
 */
module Text {
  import opened Common

  function LowerChar(c: char): char {
    if 'A' <= c <= 'Z' then (c as int + 32) as char else c
  }

  /** `s.toLowerCase()` for ASCII letters; every other character is kept. */
  function Lower(s: string): (r: string)
    ensures |r| == |s|
    ensures forall i :: 0 <= i < |s| ==> r[i] == LowerChar(s[i])
  {
    if s == [] then [] else [LowerChar(s[0])] + Lower(s[1..])
  }

  lemma LowerIdempotent(s: string)
    ensures Lower(Lower(s)) == Lower(s)
  {
    assert forall i :: 0 <= i < |s| ==> Lower(Lower(s))[i] == Lower(s)[i];
  }

  /** Lower-casing works character by character, so it distributes over `+`. */
  lemma LowerAppend(a: string, b: string)
    ensures Lower(a + b) == Lower(a) + Lower(b)
  {
    assert forall i :: 0 <= i < |a + b| ==> Lower(a + b)[i] == (Lower(a) + Lower(b))[i];
  }

  /** A string with no upper-case ASCII letter is its own lower-case form. */
  lemma LowerFixed(s: string)
    requires forall c :: 'A' <= c <= 'Z' ==> c !in s
    ensures Lower(s) == s
  {
    forall i | 0 <= i < |s|
      ensures Lower(s)[i] == s[i]
    {
      assert s[i] in s;
    }
  }

  /** A character that lower-cases only from itself and `upper` is absent from
      `Lower(s)` when neither occurs in `s`. */
  lemma LowerAbsent(s: string, c: char, upper: char)
    requires c !in s && upper !in s
    requires forall x :: LowerChar(x) == c ==> x == c || x == upper
    ensures c !in Lower(s)
  {
    forall i | 0 <= i < |s|
      ensures Lower(s)[i] != c
    {
      assert s[i] in s;
    }
  }

  /** Lower-casing a string whose tail has no capitals only changes its head. */
  lemma LowerHead(s: string, head: string, tail: string, lowHead: string)
    requires s == head + tail
    requires Lower(head) == lowHead
    requires forall c :: 'A' <= c <= 'Z' ==> c !in tail
    ensures Lower(s) == lowHead + tail
  {
    LowerAppend(head, tail);
    LowerFixed(tail);
  }

  /** `pat` occurs in `s` starting at index `i`. */
  predicate OccursAt(s: string, pat: string, i: int) {
    0 <= i && i + |pat| <= |s| && s[i..i + |pat|] == pat
  }

  /** The first index at or after `k` where `pat` occurs in `s`. */
  function FindFrom(s: string, pat: string, k: nat): (r: Option<nat>)
    requires k <= |s|
    ensures r.Some? ==> k <= r.value && OccursAt(s, pat, r.value)
    ensures r.Some? ==> forall j :: k <= j < r.value ==> !OccursAt(s, pat, j)
    ensures r.None? ==> forall j :: k <= j ==> !OccursAt(s, pat, j)
    decreases |s| - k
  {
    if OccursAt(s, pat, k) then Some(k)
    else if k == |s| then None
    else FindFrom(s, pat, k + 1)
  }

  /** `s.indexOf(pat)`, with `None` for JavaScript's -1. */
  function Find(s: string, pat: string): (r: Option<nat>)
    ensures r.Some? ==> OccursAt(s, pat, r.value)
    ensures r.Some? ==> forall j :: 0 <= j < r.value ==> !OccursAt(s, pat, j)
    ensures r.None? ==> forall j :: 0 <= j ==> !OccursAt(s, pat, j)
  {
    FindFrom(s, pat, 0)
  }

  /** `s.includes(pat)`. */
  function Contains(s: string, pat: string): (b: bool)
    ensures b <==> exists i :: OccursAt(s, pat, i)
  {
    Find(s, pat).Some?
  }

  /** A string visibly built around `pat` contains it. */
  lemma OccursBetween(pre: string, pat: string, post: string)
    ensures OccursAt(pre + pat + post, pat, |pre|)
    ensures Contains(pre + pat + post, pat)
  {
    var s := pre + pat + post;
    assert s[|pre|..|pre| + |pat|] == pat;
    assert OccursAt(s, pat, |pre|);
  }

  /** A pattern with a character the text lacks does not occur in it. */
  lemma AbsentChar(text: string, pat: string, c: char)
    requires c in pat && c !in text
    ensures !Contains(text, pat)
  {
  }

  /** If character `pat[a]` occurs in `text` only once, right after `pre`, then
      the only place `pat` could start is `|pre| - a`; a mismatch at offset `b`
      there rules it out. */
  lemma AnchoredAbsence(text: string, pat: string, pre: string, post: string, a: nat, b: nat)
    requires a < |pat| && b < |pat|
    requires text == pre + [pat[a]] + post
    requires pat[a] !in pre && pat[a] !in post
    requires |pre| >= a && |pre| - a + |pat| <= |text| ==> text[|pre| - a + b] != pat[b]
    ensures !Contains(text, pat)
  {
  }

  /** An occurrence that starts inside `x` of `x + pat + y` already lies inside
      `x + pat` minus its last character, so excluding occurrences there makes
      the visible `pat` the first one. */
  lemma FindAfterPrefix(x: string, pat: string, y: string)
    requires |pat| >= 1
    requires !Contains(x + pat[..|pat| - 1], pat)
    ensures Find(x + pat + y, pat) == Some(|x|)
  {
    var s := x + pat + y;
    var w := x + pat[..|pat| - 1];
    assert s[|x|..|x| + |pat|] == pat;
    assert OccursAt(s, pat, |x|);
    assert w == s[..|w|] by {
      assert forall k :: 0 <= k < |w| ==> w[k] == s[k];
    }
    forall j | 0 <= j < |x|
      ensures !OccursAt(s, pat, j)
    {
      assert j + |pat| <= |w|;
      assert s[j..j + |pat|] == w[j..j + |pat|];
      assert !OccursAt(w, pat, j);
    }
    var r := Find(s, pat);
    assert r.Some?;
  }

  /** `s.split(sep)` for a one-character separator: never empty. */
  function Split(s: string, sep: char): (parts: seq<string>)
    ensures |parts| >= 1
    decreases |s|
  {
    if s == [] then [""]
    else
      var rest := Split(s[1..], sep);
      if s[0] == sep then [""] + rest
      else [[s[0]] + rest[0]] + rest[1..]
  }

  /** `parts.join(sep)`; the join of no parts is the empty string. */
  function Join(parts: seq<string>, sep: char): string {
    if |parts| == 0 then ""
    else if |parts| == 1 then parts[0]
    else parts[0] + [sep] + Join(parts[1..], sep)
  }

  /** No piece of a split contains the separator. */
  lemma {:induction false} SplitPiecesFree(s: string, sep: char)
    ensures forall i :: 0 <= i < |Split(s, sep)| ==> sep !in Split(s, sep)[i]
    decreases |s|
  {
    if s != [] {
      SplitPiecesFree(s[1..], sep);
      var rest := Split(s[1..], sep);
      if s[0] != sep {
        assert sep !in [s[0]] + rest[0];
        var parts := [[s[0]] + rest[0]] + rest[1..];
        assert forall i :: 1 <= i < |parts| ==> parts[i] == rest[i];
      }
    }
  }

  /** Joining the pieces of a split gives back the original string. */
  lemma {:induction false} JoinSplit(s: string, sep: char)
    ensures Join(Split(s, sep), sep) == s
    decreases |s|
  {
    if s != [] {
      var rest := Split(s[1..], sep);
      JoinSplit(s[1..], sep);
      if s[0] == sep {
        assert Split(s, sep) == [""] + rest;
        assert ([""] + rest)[1..] == rest;
        assert s == [sep] + s[1..];
      } else if |rest| == 1 {
        assert s == [s[0]] + s[1..];
      } else {
        var parts := [[s[0]] + rest[0]] + rest[1..];
        assert parts[1..] == rest[1..];
        assert Join(rest, sep) == rest[0] + [sep] + Join(rest[1..], sep);
        assert s == [s[0]] + s[1..];
      }
    }
  }

  /** A string without the separator splits into itself alone. */
  lemma {:induction false} SplitWithoutSeparator(s: string, sep: char)
    requires sep !in s
    ensures Split(s, sep) == [s]
    decreases |s|
  {
    if s != [] {
      SplitWithoutSeparator(s[1..], sep);
      assert s == [s[0]] + s[1..];
    }
  }

  /** One step of the split: a leading separator starts a new piece. */
  lemma SplitConsSep(t: string, sep: char)
    ensures Split([sep] + t, sep) == [""] + Split(t, sep)
  {
    var s := [sep] + t;
    assert s[0] == sep && s[1..] == t;
  }

  /** One step of the split: any other leading character extends the first
      piece of the rest. */
  lemma SplitConsOther(c: char, t: string, sep: char)
    requires c != sep
    ensures Split([c] + t, sep) == [[c] + Split(t, sep)[0]] + Split(t, sep)[1..]
  {
    var s := [c] + t;
    assert s[0] == c && s[1..] == t;
  }

  /** Splitting `[c] + t` when the split of `t` is already known to be the
      split of `a` followed by the split of `b`. */
  lemma SplitConsKnown(c: char, t: string, a: string, b: string, sep: char)
    requires Split(t, sep) == Split(a, sep) + Split(b, sep)
    ensures Split([c] + t, sep) == Split([c] + a, sep) + Split(b, sep)
  {
    if c == sep {
      SplitConsSepKnown(t, a, b, sep);
    } else {
      SplitConsOtherKnown(c, t, a, b, sep);
    }
  }

  lemma SplitConsSepKnown(t: string, a: string, b: string, sep: char)
    requires Split(t, sep) == Split(a, sep) + Split(b, sep)
    ensures Split([sep] + t, sep) == Split([sep] + a, sep) + Split(b, sep)
  {
    SplitConsSep(t, sep);
    SplitConsSep(a, sep);
    Associative([""], Split(a, sep), Split(b, sep));
  }

  lemma Associative<T>(xs: seq<T>, ys: seq<T>, zs: seq<T>)
    ensures xs + (ys + zs) == (xs + ys) + zs
  {
  }

  lemma SplitConsOtherKnown(c: char, t: string, a: string, b: string, sep: char)
    requires c != sep
    requires Split(t, sep) == Split(a, sep) + Split(b, sep)
    ensures Split([c] + t, sep) == Split([c] + a, sep) + Split(b, sep)
  {
    SplitConsOther(c, t, sep);
    SplitConsOther(c, a, sep);
    var ra, rb := Split(a, sep), Split(b, sep);
    ConsFirst([c] + ra[0], ra, rb);
  }

  /** Replacing the head of a non-empty sequence commutes with appending. */
  lemma ConsFirst<T>(x: T, xs: seq<T>, ys: seq<T>)
    requires |xs| >= 1
    ensures (xs + ys)[0] == xs[0] && (xs + ys)[1..] == xs[1..] + ys
    ensures [x] + (xs + ys)[1..] == ([x] + xs[1..]) + ys
  {
  }

  /** Splitting at a separator character splits the two sides independently. */
  lemma {:induction false} SplitAround(a: string, b: string, sep: char)
    ensures Split(a + [sep] + b, sep) == Split(a, sep) + Split(b, sep)
    decreases |a|
  {
    if a == [] {
      assert a + [sep] + b == [sep] + b;
      SplitConsSep(b, sep);
    } else {
      var t := a[1..] + [sep] + b;
      SplitAround(a[1..], b, sep);
      SplitConsKnown(a[0], t, a[1..], b, sep);
      assert [a[0]] + a[1..] == a;
      assert [a[0]] + t == a + [sep] + b;
    }
  }

  /** Splitting a join of separator-free pieces gives back the pieces. */
  lemma {:induction false} SplitJoin(parts: seq<string>, sep: char)
    requires |parts| >= 1
    requires forall i :: 0 <= i < |parts| ==> sep !in parts[i]
    ensures Split(Join(parts, sep), sep) == parts
    decreases |parts|
  {
    SplitWithoutSeparator(parts[0], sep);
    if |parts| > 1 {
      SplitJoin(parts[1..], sep);
      SplitAround(parts[0], Join(parts[1..], sep), sep);
      assert parts == [parts[0]] + parts[1..];
    }
  }

  /** `s.split(sep)[0]`: the text before the first separator, or all of `s`. */
  lemma {:induction false} FirstPieceIsPrefix(s: string, sep: char)
    ensures |Split(s, sep)[0]| <= |s|
    ensures Split(s, sep)[0] == s[..|Split(s, sep)[0]|]
    ensures sep !in Split(s, sep)[0]
    ensures |Split(s, sep)[0]| < |s| ==> s[|Split(s, sep)[0]|] == sep
    ensures sep !in s ==> Split(s, sep)[0] == s
    decreases |s|
  {
    if sep !in s {
      SplitWithoutSeparator(s, sep);
    } else if s[0] == sep {
      SplitConsSep(s[1..], sep);
      assert [s[0]] + s[1..] == s;
    } else {
      var t := s[1..];
      FirstPieceIsPrefix(t, sep);
      SplitConsOther(s[0], t, sep);
      assert [s[0]] + t == s;
      var p := Split(t, sep)[0];
      assert Split(s, sep)[0] == [s[0]] + p;
      assert s[..|p| + 1] == [s[0]] + t[..|p|];
    }
  }

  function DigitChar(d: nat): char
    requires d < 10
  {
    ('0' as int + d) as char
  }

  function DigitValue(c: char): nat {
    if '0' <= c <= '9' then c as int - '0' as int else 0
  }

  /** The decimal rendering of `n` that JavaScript produces for an integer in
      a template literal (such as `${Date.now()}`). */
  function Decimal(n: nat): (r: string)
    ensures |r| >= 1
    ensures forall i :: 0 <= i < |r| ==> '0' <= r[i] <= '9'
    ensures |r| > 1 ==> r[0] != '0'
  {
    if n < 10 then [DigitChar(n)] else Decimal(n / 10) + [DigitChar(n % 10)]
  }

  /** The number a string of decimal digits denotes. */
  function DecimalValue(s: string): nat {
    if s == [] then 0 else 10 * DecimalValue(s[..|s| - 1]) + DigitValue(s[|s| - 1])
  }

  /** Reading a rendered timestamp back gives the timestamp. */
  lemma {:induction false} DecimalRoundTrip(n: nat)
    ensures DecimalValue(Decimal(n)) == n
  {
    if n >= 10 {
      var d := Decimal(n / 10);
      var s := d + [DigitChar(n % 10)];
      DecimalRoundTrip(n / 10);
      assert s[..|s| - 1] == d;
      assert DigitValue(s[|s| - 1]) == n % 10;
      assert DecimalValue(s) == 10 * (n / 10) + n % 10;
    }
  }
}
