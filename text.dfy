/**
 * The Python string primitives the documentation scripts are built from:
 * character classes of the `re` patterns they use, `str.strip`, `str.split`
 * and `str.join` on one separator character, substring search, `str.replace`
 * and a literal `re.sub`, and decimal rendering of a position.
 *
 * Character classes are the ASCII parts of Python's Unicode classes.
 */
module Text {
  import opened Wrappers

  type String = seq<char>

  /** `\s` and `str.isspace()` on ASCII: tab to carriage return, the separators 0x1C-0x1F, space. */
  predicate IsSpace(c: char) { 9 <= c as int <= 13 || 28 <= c as int <= 32 }

  predicate IsNonSpace(c: char) { !IsSpace(c) }

  /** `\d` on ASCII. */
  predicate IsDigit(c: char) { '0' <= c <= '9' }

  predicate IsLowerLetter(c: char) { 'a' <= c <= 'z' }

  predicate IsUpperLetter(c: char) { 'A' <= c <= 'Z' }

  /** `\w` on ASCII. */
  predicate IsWordChar(c: char) { IsLowerLetter(c) || IsUpperLetter(c) || IsDigit(c) || c == '_' }

  /** ASCII `str.lower()` of one character. */
  function Lower(c: char): char
  {
    if IsUpperLetter(c) then (c as int + 32) as char else c
  }

  function LowerStr(s: String): String
  {
    seq(|s|, i requires 0 <= i < |s| => Lower(s[i]))
  }

  /** The end of the longest run of characters satisfying `p` that begins at `i`. */
  function RunEnd(s: String, i: nat, p: char -> bool): (j: nat)
    requires i <= |s|
    ensures i <= j <= |s|
    ensures forall k :: i <= k < j ==> p(s[k])
    ensures j == |s| || !p(s[j])
    decreases |s| - i
  {
    if i < |s| && p(s[i]) then RunEnd(s, i + 1, p) else i
  }

  /** The start of the longest run of characters satisfying `p` that ends at `j`, not going below `lo`. */
  function RunStart(s: String, lo: nat, j: nat, p: char -> bool): (k: nat)
    requires lo <= j <= |s|
    ensures lo <= k <= j
    ensures forall m :: k <= m < j ==> p(s[m])
    ensures k == lo || !p(s[k - 1])
    decreases j - lo
  {
    if lo < j && p(s[j - 1]) then RunStart(s, lo, j - 1, p) else j
  }

  predicate StartsWith(s: String, prefix: String)
  {
    |prefix| <= |s| && s[..|prefix|] == prefix
  }

  predicate OccursAt(s: String, pat: String, k: nat)
  {
    k + |pat| <= |s| && s[k..k + |pat|] == pat
  }

  lemma OccursAtSplit(s: String, x: String, y: String, p: nat)
    requires OccursAt(s, x + y, p)
    ensures OccursAt(s, x, p) && OccursAt(s, y, p + |x|)
  {
    assert s[p..p + |x|] == (x + y)[..|x|];
    assert s[p + |x|..p + |x| + |y|] == (x + y)[|x|..];
  }

  lemma OccursAtJoin(s: String, x: String, y: String, p: nat)
    requires OccursAt(s, x, p) && OccursAt(s, y, p + |x|)
    ensures OccursAt(s, x + y, p)
  {
    assert s[p..p + |x| + |y|] == s[p..p + |x|] + s[p + |x|..p + |x| + |y|];
  }

  /** A run that is followed by a character outside the class is exactly what `RunEnd` finds. */
  lemma RunEndExact(s: String, i: nat, j: nat, p: char -> bool)
    requires i <= j <= |s|
    requires forall k :: i <= k < j ==> p(s[k])
    requires j == |s| || !p(s[j])
    ensures RunEnd(s, i, p) == j
  {
  }

  /** A copy of `x` standing at `i`, all in the class and followed by a character outside it, is the run from `i`. */
  lemma RunEndOver(s: String, i: nat, x: String, p: char -> bool)
    requires OccursAt(s, x, i) && forall c :: c in x ==> p(c)
    requires i + |x| == |s| || !p(s[i + |x|])
    ensures RunEnd(s, i, p) == i + |x|
  {
    forall k | i <= k < i + |x| ensures p(s[k]) {
      assert s[k] == s[i..i + |x|][k - i];
    }
    RunEndExact(s, i, i + |x|, p);
  }

  /** `str.find(pat, i)`: the first occurrence of `pat` at or after `i`. */
  function FindFrom(s: String, pat: String, i: nat): (r: Option<nat>)
    requires i <= |s|
    ensures r.Some? ==> i <= r.value && OccursAt(s, pat, r.value)
    ensures forall k :: i <= k <= |s| && (r.None? || k < r.value) ==> !OccursAt(s, pat, k)
    decreases |s| - i
  {
    if OccursAt(s, pat, i) then Some(i)
    else if i == |s| then None
    else FindFrom(s, pat, i + 1)
  }

  /** The first occurrence at or after `i` is what `FindFrom` reports. */
  lemma FindFromExact(s: String, pat: String, i: nat, k: nat)
    requires i <= k <= |s| && OccursAt(s, pat, k)
    requires forall j :: i <= j < k ==> !OccursAt(s, pat, j)
    ensures FindFrom(s, pat, i) == Some(k)
  {
  }

  /** Python's `pat in s`. */
  predicate Contains(s: String, pat: String)
  {
    FindFrom(s, pat, 0).Some?
  }

  /** `str.strip()`: the text without its leading and trailing whitespace. */
  function Strip(s: String): (r: String)
    ensures |r| <= |s|
    ensures r == [] || (!IsSpace(r[0]) && !IsSpace(r[|r| - 1]))
  {
    var a := RunEnd(s, 0, IsSpace);
    s[a..RunStart(s, a, |s|, IsSpace)]
  }

  /** What `Strip` removes is whitespace, and only whitespace. */
  lemma StripRemovesOnlyWhitespace(s: String)
    ensures exists a, b :: 0 <= a <= b <= |s| && Strip(s) == s[a..b]
                           && (forall k :: 0 <= k < a ==> IsSpace(s[k]))
                           && (forall k :: b <= k < |s| ==> IsSpace(s[k]))
  {
    var a := RunEnd(s, 0, IsSpace);
    var b := RunStart(s, a, |s|, IsSpace);
    assert Strip(s) == s[a..b];
    forall k | 0 <= k < a ensures IsSpace(s[k]) {
    }
    forall k | b <= k < |s| ensures IsSpace(s[k]) {
    }
  }

  /** Text with no whitespace at either end is its own `strip()`; so `strip()` is idempotent. */
  lemma StripFixed(s: String)
    requires s == [] || (!IsSpace(s[0]) && !IsSpace(s[|s| - 1]))
    ensures Strip(s) == s
  {
    if s != [] {
      assert RunEnd(s, 0, IsSpace) == 0;
      assert RunStart(s, 0, |s|, IsSpace) == |s|;
    }
  }

  lemma StripIdempotent(s: String)
    ensures Strip(Strip(s)) == Strip(s)
  {
    StripFixed(Strip(s));
  }

  /** `s.split(d)` on a one-character separator. */
  function Split(s: String, d: char): (r: seq<String>)
    ensures |r| >= 1
    ensures forall i :: 0 <= i < |r| ==> d !in r[i]
  {
    if s == [] then [[]]
    else
      var rest := Split(s[1..], d);
      if s[0] == d then [[]] + rest else [[s[0]] + rest[0]] + rest[1..]
  }

  /** `[d].join(xs)` on a one-character separator. */
  function Join(xs: seq<String>, d: char): String
  {
    if |xs| == 0 then []
    else if |xs| == 1 then xs[0]
    else xs[0] + [d] + Join(xs[1..], d)
  }

  /** Splitting a text with one more character in front. */
  lemma SplitCons(c: char, t: String, d: char)
    ensures Split([c] + t, d) == if c == d then [[]] + Split(t, d) else [[c] + Split(t, d)[0]] + Split(t, d)[1..]
  {
    assert ([c] + t)[0] == c && ([c] + t)[1..] == t;
  }

  /** Joining the pieces of a split gives back the text. */
  lemma {:induction false} JoinSplit(s: String, d: char)
    ensures Join(Split(s, d), d) == s
  {
    if s != [] {
      JoinSplit(s[1..], d);
      var rest := Split(s[1..], d);
      if s[0] == d {
        assert Split(s, d) == [[]] + rest;
        assert ([[]] + rest)[1..] == rest;
      } else if |rest| > 1 {
        assert Split(s, d)[1..] == rest[1..];
        assert Join(rest, d) == rest[0] + [d] + Join(rest[1..], d);
      }
    }
  }

  lemma {:induction false} SplitPrefix(a: String, t: String, d: char)
    requires d !in a
    ensures Split(a + t, d) == [a + Split(t, d)[0]] + Split(t, d)[1..]
  {
    var st := Split(t, d);
    if a != [] {
      var c := a[0];
      var tail := a[1..];
      var rest := Split(tail + t, d);
      assert a == [c] + tail;
      assert c != d by {
        assert c in a;
      }
      ConsRegroup(c, tail, t);
      ConsRegroup(c, tail, st[0]);
      assert Split(a + t, d) == [[c] + rest[0]] + rest[1..] by {
        SplitCons(c, tail + t, d);
      }
      assert rest[0] == tail + st[0] && rest[1..] == st[1..] by {
        SplitPrefix(tail, t, d);
      }
    } else {
      assert a + t == t && [] + st[0] == st[0];
      assert [st[0]] + st[1..] == st;
    }
  }


  /** Sequence regrouping, kept out of the inductive proofs above so that they stay cheap for the solver. */
  lemma ConsRegroup(c: char, tail: String, u: String)
    ensures [c] + tail + u == [c] + (tail + u)
  {
  }

  /** A character absent from the text is absent from every piece of its split. */
  lemma {:induction false} SplitAbsent(s: String, d: char, c: char)
    requires c !in s
    ensures forall i :: 0 <= i < |Split(s, d)| ==> c !in Split(s, d)[i]
    decreases |s|
  {
    if s != [] {
      assert s == [s[0]] + s[1..];
      SplitAbsent(s[1..], d, c);
    }
  }

  /** Splitting the join of separator-free pieces gives back the pieces. */
  lemma {:induction false} SplitJoin(xs: seq<String>, d: char)
    requires |xs| >= 1
    requires forall i :: 0 <= i < |xs| ==> d !in xs[i]
    ensures Split(Join(xs, d), d) == xs
  {
    if |xs| == 1 {
      SplitPrefix(xs[0], [], d);
      assert xs[0] + [] == xs[0];
    } else {
      var j := Join(xs[1..], d);
      SplitJoin(xs[1..], d);
      assert Join(xs, d) == xs[0] + ([d] + j);
      SplitPrefix(xs[0], [d] + j, d);
      assert ([d] + j)[0] == d && ([d] + j)[1..] == j;
      assert Split([d] + j, d) == [[]] + Split(j, d);
      assert Split(Join(xs, d), d) == [xs[0] + []] + xs[1..];
      assert xs[0] + [] == xs[0];
      assert xs == [xs[0]] + xs[1..];
    }
  }

  /** `s.count(c)` for one character. */
  function CountChar(s: String, c: char): nat
  {
    if s == [] then 0 else (if s[0] == c then 1 else 0) + CountChar(s[1..], c)
  }

  lemma {:induction false} CountCharAppend(a: String, b: String, c: char)
    ensures CountChar(a + b, c) == CountChar(a, c) + CountChar(b, c)
  {
    if a != [] {
      assert (a + b)[0] == a[0] && (a + b)[1..] == a[1..] + b;
      CountCharAppend(a[1..], b, c);
      assert CountChar(a + b, c) == (if a[0] == c then 1 else 0) + CountChar(a[1..] + b, c);
    } else {
      assert a + b == b;
    }
  }

  lemma {:induction false} CountCharPositive(s: String, c: char, k: nat)
    requires k < |s| && s[k] == c
    ensures CountChar(s, c) >= 1
  {
    if k > 0 {
      CountCharPositive(s[1..], c, k - 1);
    }
  }

  /** Whether `s` begins with `pat`, exactly or ignoring ASCII case. */
  predicate PrefixMatch(s: String, pat: String, ignoreCase: bool)
  {
    |pat| <= |s| && (if ignoreCase then LowerStr(s[..|pat|]) == LowerStr(pat) else s[..|pat|] == pat)
  }

  /**
   * Replace every non-overlapping occurrence of `pat`, scanning left to right:
   * `s.replace(pat, rep)` when `ignoreCase` is false, and
   * `re.sub(re.escape(pat), rep, s, flags=re.IGNORECASE)` when it is true.
   * An empty pattern matches at every position, before each character and at the end.
   */
  function ReplaceWith(s: String, pat: String, rep: String, ignoreCase: bool): String
    decreases |s|
  {
    if pat == [] then
      (if s == [] then rep else rep + [s[0]] + ReplaceWith(s[1..], pat, rep, ignoreCase))
    else if PrefixMatch(s, pat, ignoreCase) then rep + ReplaceWith(s[|pat|..], pat, rep, ignoreCase)
    else if s == [] then []
    else [s[0]] + ReplaceWith(s[1..], pat, rep, ignoreCase)
  }

  function Replace(s: String, pat: String, rep: String): String
  {
    ReplaceWith(s, pat, rep, false)
  }

  function ReplaceIgnoreCase(s: String, pat: String, rep: String): String
  {
    ReplaceWith(s, pat, rep, true)
  }

  /** Where a non-empty pattern occurs nowhere, replacing it changes nothing. */
  lemma {:induction false} ReplaceAbsent(s: String, pat: String, rep: String, ignoreCase: bool)
    requires pat != []
    requires forall k :: 0 <= k < |s| ==> !PrefixMatch(s[k..], pat, ignoreCase)
    ensures ReplaceWith(s, pat, rep, ignoreCase) == s
  {
    if s != [] {
      assert s[0..] == s;
      forall k | 0 <= k < |s| - 1 ensures !PrefixMatch(s[1..][k..], pat, ignoreCase) {
        assert s[1..][k..] == s[k + 1..];
      }
      ReplaceAbsent(s[1..], pat, rep, ignoreCase);
    }
  }

  /** `pat` is a non-empty text that occurs nowhere in `s`. */
  predicate Unmentioned(s: String, pat: String)
  {
    pat != [] && forall k :: 0 <= k < |s| ==> !OccursAt(s, pat, k)
  }

  /** `s.replace(pat, rep)` leaves `s` alone when `pat` does not occur in it. */
  lemma ReplaceUnmentioned(s: String, pat: String, rep: String)
    requires Unmentioned(s, pat)
    ensures Replace(s, pat, rep) == s
  {
    forall k | 0 <= k < |s| ensures !PrefixMatch(s[k..], pat, false) {
      assert !OccursAt(s, pat, k);
      if |pat| <= |s[k..]| {
        assert s[k..][..|pat|] == s[k..k + |pat|];
      }
    }
    ReplaceAbsent(s, pat, rep, false);
  }

  /** An exact occurrence is also an occurrence when case is ignored. */
  lemma ExactMatchIgnoresCase(s: String, pat: String)
    requires PrefixMatch(s, pat, false)
    ensures PrefixMatch(s, pat, true)
  {
  }

  /** Each match is replaced: text made only of copies of the pattern becomes copies of the replacement. */
  lemma {:induction false} ReplaceRepeated(pat: String, rep: String, n: nat, ignoreCase: bool)
    requires pat != []
    ensures ReplaceWith(Repeat(pat, n), pat, rep, ignoreCase) == Repeat(rep, n)
  {
    if n > 0 {
      var s := Repeat(pat, n);
      assert s[..|pat|] == pat;
      assert s[|pat|..] == Repeat(pat, n - 1);
      ReplaceRepeated(pat, rep, n - 1, ignoreCase);
    }
  }

  function Repeat(s: String, n: nat): String
  {
    if n == 0 then [] else s + Repeat(s, n - 1)
  }

  function DigitChar(d: nat): char
    requires d < 10
  {
    ('0' as int + d) as char
  }

  /** `str(n)` for a non-negative integer: its decimal digits, no leading zero. */
  function NatToString(n: nat): (r: String)
    ensures |r| >= 1 && forall i :: 0 <= i < |r| ==> IsDigit(r[i])
    ensures r[0] == '0' ==> n == 0
  {
    if n < 10 then [DigitChar(n)] else NatToString(n / 10) + [DigitChar(n % 10)]
  }
}
