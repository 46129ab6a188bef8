/**
 * `re.finditer` and `re.sub` for a pattern that never matches the empty string, over a
 * matcher tried at each position: the matches are reported left to right, and each search
 * resumes at the end of the previous match (or one character on when nothing matches).
 * `at(q)` is the match the pattern makes when tried at `q`; `startOf`/`endOf` read its span.
 */
module FindIter {
  import opened Wrappers
  import opened Folds

  /** Every match found at `q` starts at `q`, ends after it, and stays within a text of length `n`. */
  ghost predicate Advances<M>(n: nat, at: nat -> Option<M>, startOf: M -> nat, endOf: M -> nat)
  {
    forall q: nat :: q < n && at(q).Some? ==> startOf(at(q).value) == q < endOf(at(q).value) <= n
  }

  /** The matches from position `p` on, as `re.finditer` yields them. */
  function Scan<M>(n: nat, at: nat -> Option<M>, startOf: M -> nat, endOf: M -> nat, p: nat): seq<M>
    requires p <= n && Advances(n, at, startOf, endOf)
    decreases n - p
  {
    if p == n then []
    else
      match at(p)
      case Some(m) => [m] + Scan(n, at, startOf, endOf, endOf(m))
      case None => Scan(n, at, startOf, endOf, p + 1)
  }

  /** One step of the scan where a match starts at `p`: it is reported, and the search resumes at its end. */
  lemma ScanHit<M>(n: nat, at: nat -> Option<M>, startOf: M -> nat, endOf: M -> nat, p: nat)
    requires p < n && Advances(n, at, startOf, endOf) && at(p).Some?
    ensures Scan(n, at, startOf, endOf, p) == [at(p).value] + Scan(n, at, startOf, endOf, endOf(at(p).value))
  {
  }

  /** The invariant of a loop that collects the matches: a match at `p` is appended and the search resumes at its end. */
  lemma ScanStepHit<M>(n: nat, at: nat -> Option<M>, startOf: M -> nat, endOf: M -> nat, p: nat, found: seq<M>)
    requires p < n && Advances(n, at, startOf, endOf) && at(p).Some?
    ensures found + Scan(n, at, startOf, endOf, p) ==
            (found + [at(p).value]) + Scan(n, at, startOf, endOf, endOf(at(p).value))
  {
    ScanHit(n, at, startOf, endOf, p);
  }

  /** The invariant of a loop that collects the matches: with no match at `p` the search moves on by one. */
  lemma ScanStepMiss<M>(n: nat, at: nat -> Option<M>, startOf: M -> nat, endOf: M -> nat, p: nat, found: seq<M>)
    requires p < n && Advances(n, at, startOf, endOf) && at(p).None?
    ensures found + Scan(n, at, startOf, endOf, p) == found + Scan(n, at, startOf, endOf, p + 1)
  {
  }

  /** The loop that collects every match of the pattern, left to right. */
  method FindAll<M>(n: nat, at: nat -> Option<M>, startOf: M -> nat, endOf: M -> nat) returns (ms: seq<M>)
    requires Advances(n, at, startOf, endOf)
    ensures ms == Scan(n, at, startOf, endOf, 0)
  {
    ms := [];
    var pos := 0;
    while pos < n
      invariant pos <= n
      invariant ms + Scan(n, at, startOf, endOf, pos) == Scan(n, at, startOf, endOf, 0)
      decreases n - pos
    {
      var m := at(pos);
      if m.Some? {
        ScanStepHit(n, at, startOf, endOf, pos, ms);
        ms := ms + [m.value];
        pos := endOf(m.value);
      } else {
        ScanStepMiss(n, at, startOf, endOf, pos, ms);
        pos := pos + 1;
      }
    }
  }

  /** Matches come in increasing position order, are not empty, and do not overlap. */
  lemma {:induction false} ScanOrdered<M>(n: nat, at: nat -> Option<M>, startOf: M -> nat, endOf: M -> nat, p: nat)
    requires p <= n && Advances(n, at, startOf, endOf)
    ensures forall i :: 0 <= i < |Scan(n, at, startOf, endOf, p)| ==>
              p <= startOf(Scan(n, at, startOf, endOf, p)[i]) < endOf(Scan(n, at, startOf, endOf, p)[i]) <= n
    ensures forall i, j :: 0 <= i < j < |Scan(n, at, startOf, endOf, p)| ==>
              endOf(Scan(n, at, startOf, endOf, p)[i]) <= startOf(Scan(n, at, startOf, endOf, p)[j])
    decreases n - p
  {
    if p < n {
      match at(p)
      case Some(m) =>
        ScanOrdered(n, at, startOf, endOf, endOf(m));
        assert Scan(n, at, startOf, endOf, p) == [m] + Scan(n, at, startOf, endOf, endOf(m));
      case None =>
        ScanOrdered(n, at, startOf, endOf, p + 1);
    }
  }

  /** Each reported match is the one the pattern makes at its own start. */
  lemma {:induction false} ScanFound<M>(n: nat, at: nat -> Option<M>, startOf: M -> nat, endOf: M -> nat, p: nat, i: nat)
    requires p <= n && Advances(n, at, startOf, endOf) && i < |Scan(n, at, startOf, endOf, p)|
    ensures at(startOf(Scan(n, at, startOf, endOf, p)[i])).Some?
    ensures at(startOf(Scan(n, at, startOf, endOf, p)[i])).value == Scan(n, at, startOf, endOf, p)[i]
    decreases n - p
  {
    match at(p)
    case Some(m) =>
      assert Scan(n, at, startOf, endOf, p) == [m] + Scan(n, at, startOf, endOf, endOf(m));
      if i > 0 {
        ScanFound(n, at, startOf, endOf, endOf(m), i - 1);
      }
    case None =>
      ScanFound(n, at, startOf, endOf, p + 1, i);
  }

  /** `q` lies inside none of the matches `ms`. */
  predicate Uncovered<M>(ms: seq<M>, startOf: M -> nat, endOf: M -> nat, q: nat)
  {
    forall i :: 0 <= i < |ms| ==> !(startOf(ms[i]) <= q < endOf(ms[i]))
  }

  /** Leftmost matching: nothing matches at a position from `p` on that no reported match covers. */
  lemma {:induction false} ScanLeftmost<M>(n: nat, at: nat -> Option<M>, startOf: M -> nat, endOf: M -> nat, p: nat, q: nat)
    requires p <= q < n && Advances(n, at, startOf, endOf)
    requires Uncovered(Scan(n, at, startOf, endOf, p), startOf, endOf, q)
    ensures at(q).None?
    decreases n - p
  {
    var r := Scan(n, at, startOf, endOf, p);
    match at(p)
    case Some(m) =>
      assert r == [m] + Scan(n, at, startOf, endOf, endOf(m));
      assert !(startOf(r[0]) <= q < endOf(r[0]));
      var rest := Scan(n, at, startOf, endOf, endOf(m));
      forall i | 0 <= i < |rest| ensures !(startOf(rest[i]) <= q < endOf(rest[i])) {
        assert rest[i] == r[i + 1];
      }
      ScanLeftmost(n, at, startOf, endOf, endOf(m), q);
    case None =>
      if q > p {
        ScanLeftmost(n, at, startOf, endOf, p + 1, q);
      }
  }

  /** No match is reported exactly when the pattern matches at no position from `p` on. */
  lemma ScanEmpty<M>(n: nat, at: nat -> Option<M>, startOf: M -> nat, endOf: M -> nat, p: nat)
    requires p <= n && Advances(n, at, startOf, endOf)
    ensures Scan(n, at, startOf, endOf, p) == [] <==> forall q :: p <= q < n ==> at(q).None?
  {
    var r := Scan(n, at, startOf, endOf, p);
    if r == [] {
      forall q | p <= q < n ensures at(q).None? {
        ScanLeftmost(n, at, startOf, endOf, p, q);
      }
    } else {
      ScanOrdered(n, at, startOf, endOf, p);
      ScanFound(n, at, startOf, endOf, p, 0);
    }
  }

  /**
   * `re.sub` from `p`: every match is replaced by `rep(match)`, the text between matches
   * is copied, and the search resumes at the end of each match.
   */
  function Sub<M>(s: seq<char>, at: nat -> Option<M>, startOf: M -> nat, endOf: M -> nat,
                  rep: M -> seq<char>, p: nat): seq<char>
    requires p <= |s| && Advances(|s|, at, startOf, endOf)
    decreases |s| - p
  {
    if p == |s| then []
    else
      match at(p)
      case Some(m) => rep(m) + Sub(s, at, startOf, endOf, rep, endOf(m))
      case None => [s[p]] + Sub(s, at, startOf, endOf, rep, p + 1)
  }

  /** Where nothing matches, `re.sub` returns the text unchanged. */
  lemma {:induction false} SubNoMatch<M>(s: seq<char>, at: nat -> Option<M>, startOf: M -> nat, endOf: M -> nat,
                                         rep: M -> seq<char>, p: nat)
    requires p <= |s| && Advances(|s|, at, startOf, endOf)
    requires Scan(|s|, at, startOf, endOf, p) == []
    ensures Sub(s, at, startOf, endOf, rep, p) == s[p..]
    decreases |s| - p
  {
    if p < |s| {
      ScanEmpty(|s|, at, startOf, endOf, p);
      assert at(p).None?;
      ScanStepMiss(|s|, at, startOf, endOf, p, []);
      SubNoMatch(s, at, startOf, endOf, rep, p + 1);
      assert s[p..] == [s[p]] + s[p + 1..];
    }
  }

  /**
   * `re.sub` with every match replaced by its own text changes nothing: the result is the
   * text between the matches and the matches themselves, in order.
   */
  lemma {:induction false} SubIdentity<M>(s: seq<char>, at: nat -> Option<M>, startOf: M -> nat, endOf: M -> nat,
                                          rep: M -> seq<char>, p: nat)
    requires p <= |s| && Advances(|s|, at, startOf, endOf)
    requires forall q: nat :: q < |s| && at(q).Some? ==> rep(at(q).value) == s[q..endOf(at(q).value)]
    ensures Sub(s, at, startOf, endOf, rep, p) == s[p..]
    decreases |s| - p
  {
    if p < |s| {
      match at(p)
      case Some(m) =>
        SubIdentity(s, at, startOf, endOf, rep, endOf(m));
        assert s[p..] == s[p..endOf(m)] + s[endOf(m)..];
      case None =>
        SubIdentity(s, at, startOf, endOf, rep, p + 1);
        assert s[p..] == [s[p]] + s[p + 1..];
    }
  }

  /** The first match reported from `p` lies after `p`, and the rest are those reported from its end. */
  lemma {:induction false} ScanFirst<M>(n: nat, at: nat -> Option<M>, startOf: M -> nat, endOf: M -> nat, p: nat)
    requires p <= n && Advances(n, at, startOf, endOf)
    requires Scan(n, at, startOf, endOf, p) != []
    ensures p <= startOf(Scan(n, at, startOf, endOf, p)[0]) < endOf(Scan(n, at, startOf, endOf, p)[0]) <= n
    ensures Scan(n, at, startOf, endOf, p)[1..] == Scan(n, at, startOf, endOf, endOf(Scan(n, at, startOf, endOf, p)[0]))
    decreases n - p
  {
    if at(p).Some? {
      ScanHit(n, at, startOf, endOf, p);
    } else {
      assert Scan(n, at, startOf, endOf, p) == Scan(n, at, startOf, endOf, p + 1) by {
        ScanStepMiss(n, at, startOf, endOf, p, []);
      }
      ScanFirst(n, at, startOf, endOf, p + 1);
    }
  }

  /**
   * `re.sub` reaches the first reported match by copying the text before it, then emits the
   * match's replacement and carries on after it.
   */
  lemma {:induction false} SubFirst<M>(s: seq<char>, at: nat -> Option<M>, startOf: M -> nat, endOf: M -> nat,
                                       rep: M -> seq<char>, p: nat)
    requires p <= |s| && Advances(|s|, at, startOf, endOf)
    requires Scan(|s|, at, startOf, endOf, p) != []
    ensures p <= startOf(Scan(|s|, at, startOf, endOf, p)[0]) < endOf(Scan(|s|, at, startOf, endOf, p)[0]) <= |s|
    ensures Sub(s, at, startOf, endOf, rep, p) ==
            s[p..startOf(Scan(|s|, at, startOf, endOf, p)[0])] + rep(Scan(|s|, at, startOf, endOf, p)[0]) +
            Sub(s, at, startOf, endOf, rep, endOf(Scan(|s|, at, startOf, endOf, p)[0]))
    decreases |s| - p
  {
    ScanFirst(|s|, at, startOf, endOf, p);
    if at(p).Some? {
      ScanHit(|s|, at, startOf, endOf, p);
      assert s[p..p] == [];
    } else {
      assert Scan(|s|, at, startOf, endOf, p) == Scan(|s|, at, startOf, endOf, p + 1) by {
        ScanStepMiss(|s|, at, startOf, endOf, p, []);
      }
      SubFirst(s, at, startOf, endOf, rep, p + 1);
      var m := Scan(|s|, at, startOf, endOf, p)[0];
      assert s[p..startOf(m)] == [s[p]] + s[p + 1..startOf(m)];
    }
  }

  /** With no match at `p`, `re.sub` copies that one character and moves on. */
  lemma SubMiss<M>(s: seq<char>, at: nat -> Option<M>, startOf: M -> nat, endOf: M -> nat, rep: M -> seq<char>, p: nat)
    requires p < |s| && Advances(|s|, at, startOf, endOf) && at(p).None?
    ensures Sub(s, at, startOf, endOf, rep, p) == [s[p]] + Sub(s, at, startOf, endOf, rep, p + 1)
  {
  }

  /** Where nothing matches between `p` and `q`, `re.sub` copies that stretch unchanged. */
  lemma {:induction false} SubSkip<M>(s: seq<char>, at: nat -> Option<M>, startOf: M -> nat, endOf: M -> nat,
                                      rep: M -> seq<char>, p: nat, q: nat)
    requires p <= q <= |s| && Advances(|s|, at, startOf, endOf)
    requires forall k :: p <= k < q ==> at(k).None?
    ensures Sub(s, at, startOf, endOf, rep, p) == s[p..q] + Sub(s, at, startOf, endOf, rep, q)
    decreases q - p
  {
    if p == q {
      assert s[p..q] == [];
    } else {
      SubSkip(s, at, startOf, endOf, rep, p, q - 1);
      assert at(q - 1).None?;
      SubMiss(s, at, startOf, endOf, rep, q - 1);
      assert s[p..q] == s[p..q - 1] + [s[q - 1]];
    }
  }

  /** The loop `re.sub` runs: copy the text up to each match, emit its replacement, resume after it. */
  method SubAll<M>(s: seq<char>, at: nat -> Option<M>, startOf: M -> nat, endOf: M -> nat, rep: M -> seq<char>)
    returns (out: seq<char>)
    requires Advances(|s|, at, startOf, endOf)
    ensures out == Sub(s, at, startOf, endOf, rep, 0)
  {
    var ms := FindAll(|s|, at, startOf, endOf);
    out := [];
    var pos: nat := 0;
    var i := 0;
    while i < |ms|
      invariant 0 <= i <= |ms| && pos <= |s|
      invariant ms[i..] == Scan(|s|, at, startOf, endOf, pos)
      invariant out + Sub(s, at, startOf, endOf, rep, pos) == Sub(s, at, startOf, endOf, rep, 0)
    {
      ScanFirst(|s|, at, startOf, endOf, pos);
      SubFirst(s, at, startOf, endOf, rep, pos);
      assert ms[i..][1..] == ms[i + 1..];
      out := out + s[pos..startOf(ms[i])] + rep(ms[i]);
      pos := endOf(ms[i]);
      i := i + 1;
    }
    SubNoMatch(s, at, startOf, endOf, rep, pos);
    out := out + s[pos..];
  }

  /** The loop state of `SubTally` after the matches before `ms[i]`, ending at `pos`. */
  ghost predicate TallyState<M, E>(s: seq<char>, at: nat -> Option<M>, startOf: M -> nat, endOf: M -> nat,
                                   rep: M -> seq<char>, err: M -> seq<E>, ok: M -> bool,
                                   ms: seq<M>, i: nat, pos: nat, out: seq<char>, errs: seq<E>, count: nat)
  {
    && Advances(|s|, at, startOf, endOf) && i <= |ms| && pos <= |s|
    && ms[i..] == Scan(|s|, at, startOf, endOf, pos)
    && out + Sub(s, at, startOf, endOf, rep, pos) == Sub(s, at, startOf, endOf, rep, 0)
    && errs == FlatMap(ms[..i], err) && count == CountIf(ms[..i], ok)
  }

  /** One step of `SubTally`: the next match is copied after the text before it, and reported on. */
  lemma TallyStep<M, E>(s: seq<char>, at: nat -> Option<M>, startOf: M -> nat, endOf: M -> nat,
                        rep: M -> seq<char>, err: M -> seq<E>, ok: M -> bool,
                        ms: seq<M>, i: nat, pos: nat, out: seq<char>, errs: seq<E>, count: nat)
    requires Advances(|s|, at, startOf, endOf)
    requires TallyState(s, at, startOf, endOf, rep, err, ok, ms, i, pos, out, errs, count) && i < |ms|
    ensures pos <= startOf(ms[i]) <= endOf(ms[i]) <= |s|
    ensures TallyState(s, at, startOf, endOf, rep, err, ok, ms, i + 1, endOf(ms[i]),
                       out + s[pos..startOf(ms[i])] + rep(ms[i]), errs + err(ms[i]),
                       count + (if ok(ms[i]) then 1 else 0))
  {
    var m := ms[i];
    ScanFirst(|s|, at, startOf, endOf, pos);
    SubFirst(s, at, startOf, endOf, rep, pos);
    assert ms[i..][1..] == ms[i + 1..];
    assert ms[..i + 1] == ms[..i] + [m];
    FlatMapSnoc(ms[..i], m, err);
    CountIfSnoc(ms[..i], m, ok);
  }

  /**
   * `re.sub` with a callback that also reports on each match: besides the rewritten text, the
   * values `err` gives for each match, in order, and the number of matches `ok` accepts.
   */
  method SubTally<M, E>(s: seq<char>, at: nat -> Option<M>, startOf: M -> nat, endOf: M -> nat,
                        rep: M -> seq<char>, err: M -> seq<E>, ok: M -> bool)
    returns (out: seq<char>, errs: seq<E>, count: nat)
    requires Advances(|s|, at, startOf, endOf)
    ensures out == Sub(s, at, startOf, endOf, rep, 0)
    ensures errs == FlatMap(Scan(|s|, at, startOf, endOf, 0), err)
    ensures count == CountIf(Scan(|s|, at, startOf, endOf, 0), ok)
  {
    var ms := FindAll(|s|, at, startOf, endOf);
    out, errs, count := [], [], 0;
    var pos: nat := 0;
    var i: nat := 0;
    while i < |ms|
      invariant TallyState(s, at, startOf, endOf, rep, err, ok, ms, i, pos, out, errs, count)
    {
      var m := ms[i];
      TallyStep(s, at, startOf, endOf, rep, err, ok, ms, i, pos, out, errs, count);
      out := out + s[pos..startOf(m)] + rep(m);
      errs := errs + err(m);
      count := count + (if ok(m) then 1 else 0);
      pos := endOf(m);
      i := i + 1;
    }
    SubNoMatch(s, at, startOf, endOf, rep, pos);
    out := out + s[pos..];
    assert ms[..i] == ms;
  }
}
