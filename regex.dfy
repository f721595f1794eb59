/** A backtracking regular-expression engine for the patterns Python's `re`
    runs here: a concatenation of literals and quantified character classes.
    For such a pattern the engine's search order is fixed: atoms are decided
    left to right; a greedy quantifier tries its longest run first and backs
    off one character at a time, a lazy one tries its shortest run first and
    grows it one character at a time; a literal has one way to match. The
    first combination for which every atom matches is what `re` reports. */
module Regex {
  import opened Results
  import opened Text

  datatype Atom =
    | Lit(s: string)                  // literal text
    | Greedy(k: CharClass, min: nat)  // k* (min 0) or k+ (min 1)
    | Lazy(k: CharClass, min: nat)    // k*? (min 0) or k+? (min 1)

  type Pattern = seq<Atom>

  /** Atom a can match exactly t[start..end]. */
  predicate AtomMatches(t: string, a: Atom, start: nat, end: nat) {
    match a
    case Lit(s) => end == start + |s| && LiteralAt(t, start, s)
    case Greedy(k, min) => start + min <= end && AllIn(t, start, end, k)
    case Lazy(k, min) => start + min <= end && AllIn(t, start, end, k)
  }

  /** A way for pattern pat to match t from pos: each atom stops where the next
      starts, and atom j stops at ends[j]. */
  ghost predicate IsMatch(t: string, pat: Pattern, pos: nat, ends: seq<nat>)
    decreases |pat|
  {
    |ends| == |pat| &&
    (pat == [] || (AtomMatches(t, pat[0], pos, ends[0]) && IsMatch(t, pat[1..], ends[0], ends[1..])))
  }

  /** Atom a would rather stop at x than at y. */
  predicate Prefers(a: Atom, x: nat, y: nat) {
    match a
    case Lit(_) => false
    case Greedy(_, _) => x > y
    case Lazy(_, _) => x < y
  }

  /** The engine tries ends a before ends b: at the first atom where they
      differ, a stops where that atom prefers. */
  predicate TriedBefore(pat: Pattern, a: seq<nat>, b: seq<nat>)
    requires |a| == |pat| && |b| == |pat|
    decreases |pat|
  {
    pat != [] && if a[0] != b[0] then Prefers(pat[0], a[0], b[0]) else TriedBefore(pat[1..], a[1..], b[1..])
  }

  /** ends is the match the engine reports: it is tried before every other match. */
  ghost predicate IsFirstMatch(t: string, pat: Pattern, pos: nat, ends: seq<nat>) {
    IsMatch(t, pat, pos, ends) && forall b :: IsMatch(t, pat, pos, b) && b != ends ==> TriedBefore(pat, ends, b)
  }

  /** The positions ends lie between pos and n and never go backwards. */
  predicate Ordered(pos: nat, ends: seq<nat>, n: nat) {
    forall i, j :: 0 <= i <= j < |ends| ==> pos <= ends[i] <= ends[j] <= n
  }

  function Cons(e: nat, r: Option<seq<nat>>): Option<seq<nat>> {
    match r
    case Some(rest) => Some([e] + rest)
    case None => None
  }

  /** Python's `pattern.match(t, pos)`: the ends of the atoms of the match the
      engine finds at exactly pos, or None. */
  function MatchAt(t: string, pat: Pattern, pos: nat): (r: Option<seq<nat>>)
    requires pos <= |t|
    ensures r.Some? ==> |r.value| == |pat| && Ordered(pos, r.value, |t|)
    decreases |pat|, 1, 0
  {
    if pat == [] then Some([])
    else
      match pat[0]
      case Lit(s) =>
        if LiteralAt(t, pos, s) then Cons(pos + |s|, MatchAt(t, pat[1..], pos + |s|)) else None
      case Greedy(k, min) =>
        TryLongest(t, pat, pos, RunEnd(t, pos, k))
      case Lazy(k, min) =>
        if pos + min <= RunEnd(t, pos, k) then TryShortest(t, pat, pos, pos + min) else None
  }

  /** A greedy first atom: try to stop it at e, then e - 1, ..., down to its minimum. */
  function TryLongest(t: string, pat: Pattern, pos: nat, e: nat): (r: Option<seq<nat>>)
    requires pat != [] && pat[0].Greedy? && pos <= e <= |t|
    ensures r.Some? ==> |r.value| == |pat| && Ordered(pos, r.value, |t|) && r.value[0] <= e
    decreases |pat|, 0, e
  {
    if e < pos + pat[0].min then None
    else
      match MatchAt(t, pat[1..], e)
      case Some(rest) => Some([e] + rest)
      case None => if e == pos then None else TryLongest(t, pat, pos, e - 1)
  }

  /** A lazy first atom: try to stop it at e, then e + 1, ..., up to the end of its run. */
  function TryShortest(t: string, pat: Pattern, pos: nat, e: nat): (r: Option<seq<nat>>)
    requires pat != [] && pat[0].Lazy? && pos <= |t| && pos + pat[0].min <= e <= RunEnd(t, pos, pat[0].k)
    ensures r.Some? ==> |r.value| == |pat| && Ordered(pos, r.value, |t|) && e <= r.value[0]
    decreases |pat|, 0, |t| - e
  {
    match MatchAt(t, pat[1..], e)
    case Some(rest) => Some([e] + rest)
    case None => if e == RunEnd(t, pos, pat[0].k) then None else TryShortest(t, pat, pos, e + 1)
  }

  /** What `pattern.match` promises: the engine's first match, or no match at all. */
  ghost predicate Reports(t: string, pat: Pattern, pos: nat, r: Option<seq<nat>>) {
    match r
    case Some(ends) => IsFirstMatch(t, pat, pos, ends)
    case None => forall b :: !IsMatch(t, pat, pos, b)
  }

  /** Two ends sequences that agree on the first atom are ordered as their rests are. */
  lemma TriedBeforeCons(pat: Pattern, e: nat, a: seq<nat>, b: seq<nat>)
    requires pat != [] && |a| == |pat| - 1 && |b| == |pat| - 1
    ensures TriedBefore(pat, [e] + a, [e] + b) == TriedBefore(pat[1..], a, b)
  {
    assert ([e] + a)[1..] == a && ([e] + b)[1..] == b;
  }

  /** MatchAt reports exactly the match the engine finds first, and nothing
      when the pattern cannot match at pos. */
  lemma {:induction false} MatchAtCorrect(t: string, pat: Pattern, pos: nat)
    requires pos <= |t|
    ensures Reports(t, pat, pos, MatchAt(t, pat, pos))
    decreases |pat|, 2, 0
  {
    if pat == [] {
      assert IsMatch(t, pat, pos, []);
    } else {
      match pat[0]
      case Lit(s) => LitCorrect(t, pat, pos);
      case Greedy(k, min) => GreedyCorrect(t, pat, pos);
      case Lazy(k, min) => LazyCorrect(t, pat, pos);
    }
  }

  /** With the first atom stopped at e, the first match of the rest of the
      pattern from e decides. */
  lemma {:induction false} ExtendFirst(t: string, pat: Pattern, pos: nat, e: nat)
    requires pat != [] && e <= |t| && AtomMatches(t, pat[0], pos, e)
    ensures match MatchAt(t, pat[1..], e)
      case Some(rest) =>
        IsMatch(t, pat, pos, [e] + rest) &&
        forall b :: IsMatch(t, pat, pos, b) && b[0] == e && b != [e] + rest ==> TriedBefore(pat, [e] + rest, b)
      case None => forall b :: IsMatch(t, pat, pos, b) ==> b[0] != e
    decreases |pat| - 1, 3, 0
  {
    MatchAtCorrect(t, pat[1..], e);
    match MatchAt(t, pat[1..], e)
    case Some(rest) =>
      assert ([e] + rest)[0] == e && ([e] + rest)[1..] == rest;
      forall b | IsMatch(t, pat, pos, b) && b[0] == e && b != [e] + rest
        ensures TriedBefore(pat, [e] + rest, b)
      {
        assert b == [e] + b[1..];
        TriedBeforeCons(pat, e, rest, b[1..]);
      }
    case None =>
  }

  lemma {:induction false} LitCorrect(t: string, pat: Pattern, pos: nat)
    requires pos <= |t| && pat != [] && pat[0].Lit?
    ensures Reports(t, pat, pos, MatchAt(t, pat, pos))
    decreases |pat|, 1, 0
  {
    var e := pos + |pat[0].s|;
    if LiteralAt(t, pos, pat[0].s) {
      ExtendFirst(t, pat, pos, e);
    }
  }

  lemma {:induction false} GreedyCorrect(t: string, pat: Pattern, pos: nat)
    requires pos <= |t| && pat != [] && pat[0].Greedy?
    ensures Reports(t, pat, pos, MatchAt(t, pat, pos))
    decreases |pat|, 1, 0
  {
    var top := RunEnd(t, pos, pat[0].k);
    TryLongestCorrect(t, pat, pos, top);
    forall b | IsMatch(t, pat, pos, b) ensures b[0] <= top {
      RunEndBounds(t, pos, b[0], pat[0].k);
    }
  }

  lemma {:induction false} LazyCorrect(t: string, pat: Pattern, pos: nat)
    requires pos <= |t| && pat != [] && pat[0].Lazy?
    ensures Reports(t, pat, pos, MatchAt(t, pat, pos))
    decreases |pat|, 1, 0
  {
    var top := RunEnd(t, pos, pat[0].k);
    forall b | IsMatch(t, pat, pos, b) ensures b[0] <= top {
      RunEndBounds(t, pos, b[0], pat[0].k);
    }
    if pos + pat[0].min <= top {
      TryShortestCorrect(t, pat, pos, pos + pat[0].min);
    }
  }

  /** TryLongest finds the first match whose first atom stops at or before e,
      and fails only when every match stops it after e. */
  lemma {:induction false} TryLongestCorrect(t: string, pat: Pattern, pos: nat, e: nat)
    requires pat != [] && pat[0].Greedy? && pos <= |t| && pos <= e <= RunEnd(t, pos, pat[0].k)
    ensures match TryLongest(t, pat, pos, e)
      case Some(x) =>
        IsMatch(t, pat, pos, x) &&
        forall b :: IsMatch(t, pat, pos, b) && b[0] <= e && b != x ==> TriedBefore(pat, x, b)
      case None => forall b :: IsMatch(t, pat, pos, b) ==> b[0] > e
    decreases |pat|, 0, e
  {
    if e >= pos + pat[0].min {
      AllInPrefix(t, pos, e, RunEnd(t, pos, pat[0].k), pat[0].k);
      ExtendFirst(t, pat, pos, e);
      if MatchAt(t, pat[1..], e).None? && e > pos {
        TryLongestCorrect(t, pat, pos, e - 1);
      }
    }
  }

  /** TryShortest finds the first match whose first atom stops at or after e,
      and fails only when every match stops it before e. */
  lemma {:induction false} TryShortestCorrect(t: string, pat: Pattern, pos: nat, e: nat)
    requires pat != [] && pat[0].Lazy? && pos <= |t| && pos + pat[0].min <= e <= RunEnd(t, pos, pat[0].k)
    ensures match TryShortest(t, pat, pos, e)
      case Some(x) =>
        IsMatch(t, pat, pos, x) &&
        forall b :: IsMatch(t, pat, pos, b) && b[0] >= e && b != x ==> TriedBefore(pat, x, b)
      case None => forall b :: IsMatch(t, pat, pos, b) ==> b[0] < e
    decreases |pat|, 0, |t| - e
  {
    var top := RunEnd(t, pos, pat[0].k);
    forall b | IsMatch(t, pat, pos, b) ensures b[0] <= top {
      RunEndBounds(t, pos, b[0], pat[0].k);
    }
    AllInPrefix(t, pos, e, top, pat[0].k);
    ExtendFirst(t, pat, pos, e);
    if MatchAt(t, pat[1..], e).None? && e < top {
      TryShortestCorrect(t, pat, pos, e + 1);
    }
  }

  /** Where two ends sequences first differ decides which is tried first. */
  lemma {:induction false} TriedBeforeAt(pat: Pattern, a: seq<nat>, b: seq<nat>, d: nat)
    requires |a| == |pat| && |b| == |pat| && d < |pat|
    requires a[..d] == b[..d] && a[d] != b[d]
    ensures TriedBefore(pat, a, b) == Prefers(pat[d], a[d], b[d])
    decreases d
  {
    if d > 0 {
      assert a[0] == a[..d][0] && b[0] == b[..d][0];
      assert a[1..][..d - 1] == a[..d][1..] && b[1..][..d - 1] == b[..d][1..];
      TriedBeforeAt(pat[1..], a[1..], b[1..], d - 1);
    }
  }

  /** Where atom j starts, when the pattern starts at pos and atom i stops at ends[i]. */
  function StartOf(pos: nat, ends: seq<nat>, j: nat): nat
    requires j <= |ends|
  {
    if j == 0 then pos else ends[j - 1]
  }

  /** In a match, each atom matches the text between its start and its end. */
  lemma {:induction false} AtomOf(t: string, pat: Pattern, pos: nat, ends: seq<nat>, j: nat)
    requires IsMatch(t, pat, pos, ends) && j < |pat|
    ensures AtomMatches(t, pat[j], StartOf(pos, ends, j), ends[j])
    decreases j
  {
    if j > 0 {
      AtomOf(t, pat[1..], ends[0], ends[1..], j - 1);
    }
  }

  /** Moving where atom d stops gives another match, provided atom d and the
      atom after it still match their new stretches of text. */
  lemma {:induction false} Retarget(t: string, pat: Pattern, pos: nat, ends: seq<nat>, d: nat, x: nat)
    requires IsMatch(t, pat, pos, ends) && d < |pat|
    requires AtomMatches(t, pat[d], StartOf(pos, ends, d), x)
    requires d + 1 < |pat| ==> AtomMatches(t, pat[d + 1], x, ends[d + 1])
    ensures IsMatch(t, pat, pos, ends[d := x])
    decreases d
  {
    var b := ends[d := x];
    if d == 0 {
      assert b[1..] == ends[1..];
    } else {
      assert b[1..] == ends[1..][d - 1 := x];
      Retarget(t, pat[1..], ends[0], ends[1..], d - 1, x);
    }
  }

  /** The engine's first match beats any other match at the first atom where
      the two differ. */
  lemma FirstPrefers(t: string, pat: Pattern, pos: nat, a: seq<nat>, b: seq<nat>, d: nat)
    requires IsFirstMatch(t, pat, pos, a) && IsMatch(t, pat, pos, b)
    requires d < |pat| && a[..d] == b[..d] && a[d] != b[d]
    ensures Prefers(pat[d], a[d], b[d])
  {
    TriedBeforeAt(pat, a, b, d);
  }

  /** The pattern cannot match the empty string: its first atom is a greedy
      class with at least one repetition. */
  predicate ConsumesInput(pat: Pattern) {
    pat != [] && pat[0].Greedy? && pat[0].min >= 1
  }

  /** One match reported by findall: where it starts and where each atom stops. */
  datatype Match = Match(start: nat, ends: seq<nat>)

  /** Where a match ends, and where findall resumes after it. */
  function End(m: Match): nat {
    if m.ends == [] then m.start else m.ends[|m.ends| - 1]
  }

  /** m is what `pattern.match(t, m.start)` reports. */
  predicate Found(t: string, pat: Pattern, m: Match) {
    m.start <= |t| && MatchAt(t, pat, m.start) == Some(m.ends)
  }

  /** What findall reports at m.start is the engine's first match there. */
  lemma FoundIsFirst(t: string, pat: Pattern, m: Match)
    requires Found(t, pat, m)
    ensures IsFirstMatch(t, pat, m.start, m.ends) && Ordered(m.start, m.ends, |t|)
  {
    MatchAtCorrect(t, pat, m.start);
  }

  /** A match of a pattern that consumes input ends after it starts. */
  lemma MatchAdvances(t: string, pat: Pattern, m: Match)
    requires ConsumesInput(pat) && Found(t, pat, m)
    ensures |m.ends| == |pat| && m.start < End(m) <= |t|
  {
    MatchAtCorrect(t, pat, m.start);
    AtomOf(t, pat, m.start, m.ends, 0);
  }

  /** `pattern.findall(t)` from pos: try a match at each position in turn;
      after a match, resume where it ended. */
  function FindAll(t: string, pat: Pattern, pos: nat): (ms: seq<Match>)
    requires ConsumesInput(pat) && pos <= |t|
    ensures forall k :: 0 <= k < |ms| ==>
      Found(t, pat, ms[k]) && |ms[k].ends| == |pat| && pos <= ms[k].start < End(ms[k]) <= |t|
    decreases |t| - pos
  {
    match MatchAt(t, pat, pos)
    case None => if pos == |t| then [] else FindAll(t, pat, pos + 1)
    case Some(ends) =>
      MatchAdvances(t, pat, Match(pos, ends));
      [Match(pos, ends)] + FindAll(t, pat, End(Match(pos, ends)))
  }

  /** Each match ends before the next one begins. */
  predicate InOrder(ms: seq<Match>) {
    forall i, j :: 0 <= i < j < |ms| ==> End(ms[i]) <= ms[j].start
  }

  /** No match of pat starts in [lo, hi). */
  ghost predicate Gap(t: string, pat: Pattern, lo: nat, hi: nat) {
    forall j :: lo <= j < hi && j <= |t| ==> MatchAt(t, pat, j).None?
  }

  /** findall skips no match: none starts before the first one it reports,
      between two it reports, or after the last. */
  ghost predicate NoneSkipped(t: string, pat: Pattern, pos: nat, ms: seq<Match>) {
    (ms == [] ==> Gap(t, pat, pos, |t| + 1)) &&
    (ms != [] ==> Gap(t, pat, pos, ms[0].start) && Gap(t, pat, End(ms[|ms| - 1]), |t| + 1)) &&
    forall k :: 0 <= k < |ms| - 1 ==> Gap(t, pat, End(ms[k]), ms[k + 1].start)
  }

  lemma InOrderCons(m: Match, rest: seq<Match>)
    requires InOrder(rest)
    requires forall k :: 0 <= k < |rest| ==> End(m) <= rest[k].start
    ensures InOrder([m] + rest)
  {
    var ms := [m] + rest;
    forall i, j | 0 <= i < j < |ms| ensures End(ms[i]) <= ms[j].start {
      assert ms[j] == rest[j - 1];
      if i == 0 {
        assert ms[0] == m;
        assert End(m) <= rest[j - 1].start;
      } else {
        assert ms[i] == rest[i - 1];
        assert End(rest[i - 1]) <= rest[j - 1].start;
      }
    }
    assert InOrder(ms);
  }

  lemma SkipsNothingStep(t: string, pat: Pattern, pos: nat, ms: seq<Match>)
    requires pos < |t| && MatchAt(t, pat, pos).None? && NoneSkipped(t, pat, pos + 1, ms)
    requires ms != [] ==> pos < ms[0].start
    ensures NoneSkipped(t, pat, pos, ms)
  {
  }

  lemma SkipsNothingCons(t: string, pat: Pattern, pos: nat, m: Match, rest: seq<Match>)
    requires pos <= m.start && Gap(t, pat, pos, m.start)
    requires NoneSkipped(t, pat, End(m), rest)
    ensures NoneSkipped(t, pat, pos, [m] + rest)
  {
    var ms := [m] + rest;
    forall k | 0 <= k < |ms| - 1 ensures Gap(t, pat, End(ms[k]), ms[k + 1].start) {
      assert ms[k + 1] == rest[k];
      if k > 0 {
        assert ms[k] == rest[k - 1];
      }
    }
    if rest != [] {
      assert ms[|ms| - 1] == rest[|rest| - 1];
    }
  }

  /** findall's matches come in document order and never overlap. */
  lemma {:induction false} FindAllInOrder(t: string, pat: Pattern, pos: nat)
    requires ConsumesInput(pat) && pos <= |t|
    ensures InOrder(FindAll(t, pat, pos))
    decreases |t| - pos
  {
    match MatchAt(t, pat, pos)
    case None =>
      if pos < |t| {
        FindAllInOrder(t, pat, pos + 1);
      }
    case Some(ends) =>
      var m := Match(pos, ends);
      MatchAdvances(t, pat, m);
      FindAllInOrder(t, pat, End(m));
      InOrderCons(m, FindAll(t, pat, End(m)));
  }

  /** findall reports every match it passes over. */
  lemma {:induction false} FindAllSkipsNothing(t: string, pat: Pattern, pos: nat)
    requires ConsumesInput(pat) && pos <= |t|
    ensures NoneSkipped(t, pat, pos, FindAll(t, pat, pos))
    decreases |t| - pos
  {
    match MatchAt(t, pat, pos)
    case None =>
      if pos < |t| {
        assert FindAll(t, pat, pos) == FindAll(t, pat, pos + 1);
        FindAllSkipsNothing(t, pat, pos + 1);
        SkipsNothingStep(t, pat, pos, FindAll(t, pat, pos + 1));
      }
    case Some(ends) =>
      var m := Match(pos, ends);
      MatchAdvances(t, pat, m);
      assert FindAll(t, pat, pos) == [m] + FindAll(t, pat, End(m));
      FindAllSkipsNothing(t, pat, End(m));
      SkipsNothingCons(t, pat, pos, m, FindAll(t, pat, End(m)));
  }

  /** In the engine's first match a greedy atom could not have taken one more
      character: either that character is outside its class, or the atom
      after it could not then have started one character later. */
  lemma GreedyTakesAll(t: string, pat: Pattern, pos: nat, ends: seq<nat>, d: nat)
    requires IsFirstMatch(t, pat, pos, ends) && d < |pat| && pat[d].Greedy?
    requires ends[d] < |t| && InClass(t[ends[d]], pat[d].k)
    ensures d + 1 < |pat| && !AtomMatches(t, pat[d + 1], ends[d] + 1, ends[d + 1])
  {
    if d + 1 == |pat| || AtomMatches(t, pat[d + 1], ends[d] + 1, ends[d + 1]) {
      AtomOf(t, pat, pos, ends, d);
      var b := ends[d := ends[d] + 1];
      Retarget(t, pat, pos, ends, d, ends[d] + 1);
      assert b[..d] == ends[..d];
      FirstPrefers(t, pat, pos, ends, b, d);
      assert false;
    }
  }

  /** In the engine's first match a lazy atom could not have given back its
      last character: either it is at its minimum, or the atom after it could
      not then have started one character earlier. */
  lemma LazyTakesLeast(t: string, pat: Pattern, pos: nat, ends: seq<nat>, d: nat)
    requires IsFirstMatch(t, pat, pos, ends) && d < |pat| && pat[d].Lazy?
    requires StartOf(pos, ends, d) + pat[d].min < ends[d]
    ensures d + 1 < |pat| && !AtomMatches(t, pat[d + 1], ends[d] - 1, ends[d + 1])
  {
    if d + 1 == |pat| || AtomMatches(t, pat[d + 1], ends[d] - 1, ends[d + 1]) {
      AtomOf(t, pat, pos, ends, d);
      var b := ends[d := ends[d] - 1];
      AllInPrefix(t, StartOf(pos, ends, d), ends[d] - 1, ends[d], pat[d].k);
      Retarget(t, pat, pos, ends, d, ends[d] - 1);
      assert b[..d] == ends[..d];
      FirstPrefers(t, pat, pos, ends, b, d);
      assert false;
    }
  }

  /** findall reports nothing exactly when the pattern matches nowhere in t. */
  lemma FindAllEmpty(t: string, pat: Pattern)
    requires ConsumesInput(pat)
    ensures FindAll(t, pat, 0) == [] ==> forall pos: nat, ends: seq<nat> :: pos <= |t| ==> !IsMatch(t, pat, pos, ends)
    ensures (forall pos: nat, ends: seq<nat> :: pos <= |t| ==> !IsMatch(t, pat, pos, ends)) ==> FindAll(t, pat, 0) == []
  {
    var ms := FindAll(t, pat, 0);
    if ms == [] {
      FindAllSkipsNothing(t, pat, 0);
      forall pos: nat, ends: seq<nat> | pos <= |t| ensures !IsMatch(t, pat, pos, ends) {
        MatchAtCorrect(t, pat, pos);
      }
    } else {
      var m := ms[0];
      FoundIsFirst(t, pat, m);
      var pos: nat, ends: seq<nat> := m.start, m.ends;
      assert pos <= |t| && IsMatch(t, pat, pos, ends);
      assert !(forall pos: nat, ends: seq<nat> :: pos <= |t| ==> !IsMatch(t, pat, pos, ends));
      assert FindAll(t, pat, 0) != [];
    }
  }
}
