/**
 * The free-word selection of the maintenance script that rewrites each
 * English vocabulary file: every word's free flag is cleared, the first five
 * words of difficulty 3, then 2, then 1 are marked free (the quota phase),
 * and, while fewer than fifteen words are free, further unmarked words of
 * difficulty 2, then 1, then 3 are marked in array order (the backfill).
 */
module FreemiumRules {

  /** A vocabulary entry; `difficulty` is `metadata.difficulty`, the other fields stand for the rest of the record. */
  datatype Word = Word(id: string, english: string, difficulty: int, isFree: bool)

  const TargetTotal: nat := 15

  /** The per-difficulty limit of the quota phase. */
  const Quota: nat := 5

  function Min(a: int, b: int): int { if a <= b then a else b }

  function Max0(a: int): nat { if a > 0 then a else 0 }

  // ---------------------------------------------------------------------------
  // Counting

  /** The number of words of difficulty `d`. */
  function Count(ws: seq<Word>, d: int): (n: nat)
    ensures n <= |ws|
  {
    if ws == [] then 0
    else Count(ws[..|ws| - 1], d) + (if ws[|ws| - 1].difficulty == d then 1 else 0)
  }

  /** The number of free words of difficulty `d`. */
  function FreeOf(ws: seq<Word>, d: int): (n: nat)
    ensures n <= Count(ws, d)
  {
    if ws == [] then 0
    else FreeOf(ws[..|ws| - 1], d) + (if ws[|ws| - 1].difficulty == d && ws[|ws| - 1].isFree then 1 else 0)
  }

  /** The number of free words. */
  function FreeCount(ws: seq<Word>): (n: nat)
    ensures n <= |ws|
  {
    if ws == [] then 0
    else FreeCount(ws[..|ws| - 1]) + (if ws[|ws| - 1].isFree then 1 else 0)
  }

  /** The position of word `i` among the words of difficulty `d`: how many of them precede it. */
  function Rank(ws: seq<Word>, i: nat, d: int): nat
    requires i <= |ws|
  {
    Count(ws[..i], d)
  }

  lemma RankStep(ws: seq<Word>, i: nat, d: int)
    requires i < |ws|
    ensures Rank(ws, i + 1, d) == Rank(ws, i, d) + (if ws[i].difficulty == d then 1 else 0)
  {
    assert ws[..i + 1][..i] == ws[..i];
  }

  lemma {:induction false} RankMonotone(ws: seq<Word>, i: nat, j: nat, d: int)
    requires i <= j <= |ws|
    ensures Rank(ws, i, d) <= Rank(ws, j, d)
    decreases j - i
  {
    if i < j {
      RankStep(ws, j - 1, d);
      RankMonotone(ws, i, j - 1, d);
    }
  }

  lemma RankFull(ws: seq<Word>, d: int)
    ensures Rank(ws, |ws|, d) == Count(ws, d)
  {
    assert ws[..|ws|] == ws;
  }

  /** Two word lists with the same length and the same difficulty at every position. */
  predicate SameDifficulties(a: seq<Word>, b: seq<Word>) {
    |a| == |b| && forall j :: 0 <= j < |a| ==> a[j].difficulty == b[j].difficulty
  }

  lemma {:induction false} CountSameDifficulties(a: seq<Word>, b: seq<Word>, d: int)
    requires SameDifficulties(a, b)
    ensures Count(a, d) == Count(b, d)
    decreases |a|
  {
    if a != [] {
      CountSameDifficulties(a[..|a| - 1], b[..|b| - 1], d);
    }
  }

  lemma RankSameDifficulties(a: seq<Word>, b: seq<Word>, i: nat, d: int)
    requires SameDifficulties(a, b) && i <= |a|
    ensures Rank(a, i, d) == Rank(b, i, d)
  {
    CountSameDifficulties(a[..i], b[..i], d);
  }

  // ---------------------------------------------------------------------------
  // The effect of one pass

  /** `ws` with its first `k` words of difficulty `d` marked free and every other word unchanged. */
  function MarkFirst(ws: seq<Word>, d: int, k: nat): (r: seq<Word>)
    ensures |r| == |ws|
  {
    seq(|ws|, j requires 0 <= j < |ws| =>
      if ws[j].difficulty == d && Rank(ws, j, d) < k then ws[j].(isFree := true) else ws[j])
  }

  /** The free words of difficulty `d` are exactly the first `k` words of that difficulty. */
  predicate FreeUpTo(ws: seq<Word>, d: int, k: nat) {
    forall j :: 0 <= j < |ws| && ws[j].difficulty == d ==> (ws[j].isFree <==> Rank(ws, j, d) < k)
  }

  /** Only words of difficulty 1, 2 or 3 are free. */
  predicate FreeOnlyGraded(ws: seq<Word>) {
    forall j :: 0 <= j < |ws| && ws[j].isFree ==> 1 <= ws[j].difficulty <= 3
  }

  /** Marking changes only free flags, so counts and ranks carry over. */
  lemma MarkFirstShape(ws: seq<Word>, d: int, k: nat)
    ensures SameDifficulties(MarkFirst(ws, d, k), ws)
    ensures forall j :: 0 <= j < |ws| ==> MarkFirst(ws, d, k)[j] == ws[j].(isFree := MarkFirst(ws, d, k)[j].isFree)
    ensures forall e :: Count(MarkFirst(ws, d, k), e) == Count(ws, e)
  {
    forall e ensures Count(MarkFirst(ws, d, k), e) == Count(ws, e) {
      CountSameDifficulties(MarkFirst(ws, d, k), ws, e);
    }
  }

  /** Marking one more word: the next word of difficulty `d` after the first `Rank(ws, i, d)` ones is word `i`. */
  lemma MarkFirstNext(ws: seq<Word>, d: int, i: nat)
    requires i < |ws| && ws[i].difficulty == d
    ensures MarkFirst(ws, d, Rank(ws, i, d) + 1) == MarkFirst(ws, d, Rank(ws, i, d))[i := ws[i].(isFree := true)]
  {
    var r := Rank(ws, i, d);
    RankStep(ws, i, d);
    forall j | 0 <= j < |ws| && j != i && ws[j].difficulty == d
      ensures Rank(ws, j, d) != r
    {
      if j < i {
        RankStep(ws, j, d);
        RankMonotone(ws, j + 1, i, d);
      } else {
        RankMonotone(ws, i + 1, j, d);
      }
    }
  }

  /** Marking on top of an exact prefix of free words of the same difficulty gives a longer exact prefix. */
  lemma MarkFirstFreeUpTo(ws: seq<Word>, d: int, q: nat, k: nat)
    requires FreeUpTo(ws, d, q) && q <= k
    ensures FreeUpTo(MarkFirst(ws, d, k), d, k)
  {
    var r := MarkFirst(ws, d, k);
    forall j | 0 <= j < |r| && r[j].difficulty == d
      ensures r[j].isFree <==> Rank(r, j, d) < k
    {
      MarkFirstShape(ws, d, k);
      RankSameDifficulties(r, ws, j, d);
    }
  }

  /** Marking words of one difficulty leaves the free words of another difficulty as they were. */
  lemma MarkFirstKeepsOther(ws: seq<Word>, d: int, k: nat, e: int, q: nat)
    requires d != e && FreeUpTo(ws, e, q)
    ensures FreeUpTo(MarkFirst(ws, d, k), e, q)
  {
    var r := MarkFirst(ws, d, k);
    forall j | 0 <= j < |r| && r[j].difficulty == e
      ensures r[j].isFree <==> Rank(r, j, e) < q
    {
      MarkFirstShape(ws, d, k);
      RankSameDifficulties(r, ws, j, e);
    }
  }

  /** After marking on top of an exact prefix, a word of difficulty `d` is free iff its rank is below `k`. */
  lemma MarkFirstFlag(ws: seq<Word>, d: int, q: nat, k: nat, j: nat)
    requires FreeUpTo(ws, d, q) && q <= k && j < |ws| && ws[j].difficulty == d
    ensures MarkFirst(ws, d, k)[j].isFree <==> Rank(ws, j, d) < k
  {
  }

  lemma MarkFirstGraded(ws: seq<Word>, d: int, k: nat)
    requires FreeOnlyGraded(ws) && 1 <= d <= 3
    ensures FreeOnlyGraded(MarkFirst(ws, d, k))
  {
  }

  /** With the free words of difficulty `d` an exact prefix of length `k`, there are `min(k, Count)` of them. */
  lemma {:induction false} FreeUpToCount(ws: seq<Word>, d: int, k: nat)
    requires FreeUpTo(ws, d, k)
    ensures FreeOf(ws, d) == Min(k, Count(ws, d))
    decreases |ws|
  {
    if ws != [] {
      var init := ws[..|ws| - 1];
      forall j | 0 <= j < |init| && init[j].difficulty == d
        ensures init[j].isFree <==> Rank(init, j, d) < k
      {
        assert init[..j] == ws[..j];
      }
      FreeUpToCount(init, d, k);
      if ws[|ws| - 1].difficulty == d {
        assert Rank(ws, |ws| - 1, d) == Count(init, d);
      }
    }
  }

  /** When only graded words are free, the free count is the sum of the per-difficulty free counts. */
  lemma {:induction false} FreeCountGraded(ws: seq<Word>)
    requires FreeOnlyGraded(ws)
    ensures FreeCount(ws) == FreeOf(ws, 1) + FreeOf(ws, 2) + FreeOf(ws, 3)
    decreases |ws|
  {
    if ws != [] {
      FreeCountGraded(ws[..|ws| - 1]);
    }
  }

  // ---------------------------------------------------------------------------
  // The passes, in place on the array

  /** Lines 16-43: marks words of difficulty `d` while fewer than `Quota` have been marked. */
  method QuotaPass(a: array<Word>, d: int) returns (count: nat)
    modifies a
    ensures a[..] == MarkFirst(old(a[..]), d, count)
    ensures count == Min(Quota, Count(old(a[..]), d))
  {
    ghost var s := a[..];
    count := 0;
    for i := 0 to a.Length
      invariant a[..] == MarkFirst(s, d, count)
      invariant count == Min(Quota, Rank(s, i, d))
    {
      RankStep(s, i, d);
      if a[i].difficulty == d && count < Quota {
        MarkFirstNext(s, d, i);
        a[i] := a[i].(isFree := true);
        count := count + 1;
      }
    }
    RankFull(s, d);
  }

  /**
   * Lines 52-76: stops once `freeCount` reaches the target, and otherwise
   * marks each unmarked word of difficulty `d`. Of those words, exactly the
   * first `q` are already free when it starts.
   */
  method BackfillPass(a: array<Word>, d: int, ghost q: nat, freeCount: nat) returns (newCount: nat)
    requires FreeUpTo(a[..], d, q) && freeCount <= TargetTotal
    modifies a
    ensures freeCount <= newCount <= TargetTotal
    ensures a[..] == MarkFirst(old(a[..]), d, q + (newCount - freeCount))
    ensures newCount - freeCount == Min(TargetTotal - freeCount, Max0(Count(old(a[..]), d) - q))
  {
    ghost var s := a[..];
    newCount := freeCount;
    for i := 0 to a.Length
      invariant freeCount <= newCount <= TargetTotal
      invariant a[..] == MarkFirst(s, d, q + (newCount - freeCount))
      invariant newCount - freeCount == Min(TargetTotal - freeCount, Max0(Rank(s, i, d) - q))
    {
      if newCount >= TargetTotal {
        RankMonotone(s, i, |s|, d);
        break;
      }
      newCount := BackfillAt(a, s, d, q, freeCount, newCount, i);
    }
    RankFull(s, d);
  }

  /** The body of a backfill loop at word `i`: mark it when it has difficulty `d` and is not yet free. */
  method BackfillAt(a: array<Word>, ghost s: seq<Word>, d: int, ghost q: nat, ghost freeCount: nat, count: nat, i: nat)
    returns (newCount: nat)
    requires i < a.Length == |s| && FreeUpTo(s, d, q) && freeCount <= count < TargetTotal
    requires a[..] == MarkFirst(s, d, q + (count - freeCount))
    requires count - freeCount == Min(TargetTotal - freeCount, Max0(Rank(s, i, d) - q))
    modifies a
    ensures count <= newCount <= TargetTotal
    ensures a[..] == MarkFirst(s, d, q + (newCount - freeCount))
    ensures newCount - freeCount == Min(TargetTotal - freeCount, Max0(Rank(s, i + 1, d) - q))
  {
    newCount := count;
    BackfillWord(s, d, q, count - freeCount, TargetTotal - freeCount, i);
    if !a[i].isFree && a[i].difficulty == d {
      MarkFirstNext(s, d, i);
      a[i] := a[i].(isFree := true);
      newCount := newCount + 1;
    }
  }

  /**
   * One word of a backfill pass, on the state `MarkFirst(s, d, q + c)`: the
   * word is marked when it has difficulty `d` and is not yet free, and then it
   * is the next word of that difficulty, so the counter keeps its invariant.
   */
  lemma BackfillWord(s: seq<Word>, d: int, q: nat, c: nat, t: nat, i: nat)
    requires i < |s| && FreeUpTo(s, d, q)
    requires c == Min(t, Max0(Rank(s, i, d) - q)) && c < t
    ensures var cur := MarkFirst(s, d, q + c);
            var marked := !cur[i].isFree && cur[i].difficulty == d;
            && (marked ==> Rank(s, i, d) == q + c && cur[i] == s[i])
            && c + (if marked then 1 else 0) == Min(t, Max0(Rank(s, i + 1, d) - q))
  {
    RankStep(s, i, d);
    if s[i].difficulty == d {
      MarkFirstFlag(s, d, q, q + c, i);
    }
    CounterStep(t, Rank(s, i, d), q, c, s[i].difficulty == d, MarkFirst(s, d, q + c)[i].isFree);
  }

  /**
   * The backfill counter over one word: `c` words of the pass's difficulty
   * marked so far out of `t` allowed, `r` of them seen, `q` free beforehand.
   * A word of the difficulty (`hit`) that is not yet free is marked, and then
   * it is the next one after the `q + c` free ones.
   */
  lemma CounterStep(t: nat, r: nat, q: nat, c: nat, hit: bool, free: bool)
    requires c == Min(t, Max0(r - q)) && c < t
    requires hit ==> (free <==> r < q + c)
    ensures hit && !free ==> r == q + c
    ensures c + (if hit && !free then 1 else 0) == Min(t, Max0(r + (if hit then 1 else 0) - q))
  {
  }

  // ---------------------------------------------------------------------------
  // The whole selection

  /** `s` is `words` with only free flags changed. */
  predicate SameWords(s: seq<Word>, words: seq<Word>) {
    |s| == |words| && forall j :: 0 <= j < |s| ==> s[j] == words[j].(isFree := s[j].isFree)
  }

  function Pick(d: int, k1: nat, k2: nat, k3: nat): nat {
    if d == 1 then k1 else if d == 2 then k2 else k3
  }

  /**
   * The state between passes: only flags changed, only graded words free, and
   * for each difficulty `d` exactly the first `k_d` words of difficulty `d` free.
   */
  predicate Phase(s: seq<Word>, words: seq<Word>, k1: nat, k2: nat, k3: nat) {
    SameWords(s, words) && FreeOnlyGraded(s)
    && FreeUpTo(s, 1, k1) && FreeUpTo(s, 2, k2) && FreeUpTo(s, 3, k3)
  }

  /** A pass over difficulty `d` extends that difficulty's prefix from `Pick(d, ...)` to `k`. */
  lemma PhaseMark(s: seq<Word>, words: seq<Word>, k1: nat, k2: nat, k3: nat, d: int, k: nat)
    requires Phase(s, words, k1, k2, k3) && 1 <= d <= 3 && Pick(d, k1, k2, k3) <= k
    ensures Phase(MarkFirst(s, d, k), words,
                  if d == 1 then k else k1, if d == 2 then k else k2, if d == 3 then k else k3)
    ensures forall e :: Count(MarkFirst(s, d, k), e) == Count(words, e)
  {
    MarkFirstShape(s, d, k);
    MarkFirstGraded(s, d, k);
    MarkFirstFreeUpTo(s, d, Pick(d, k1, k2, k3), k);
    if d != 1 { MarkFirstKeepsOther(s, d, k, 1, k1); }
    if d != 2 { MarkFirstKeepsOther(s, d, k, 2, k2); }
    if d != 3 { MarkFirstKeepsOther(s, d, k, 3, k3); }
    forall e ensures Count(MarkFirst(s, d, k), e) == Count(words, e) {
      CountSameDifficulties(s, words, e);
    }
  }

  /** The final state: the free count is `k1 + k2 + k3` and each difficulty's free words form a prefix. */
  lemma PhaseFinal(s: seq<Word>, words: seq<Word>, k1: nat, k2: nat, k3: nat)
    requires Phase(s, words, k1, k2, k3)
    requires k1 <= Count(words, 1) && k2 <= Count(words, 2) && k3 <= Count(words, 3)
    ensures FreeCount(s) == k1 + k2 + k3
    ensures forall d :: 1 <= d <= 3 ==> FreeUpTo(s, d, FreeOf(s, d))
  {
    CountSameDifficulties(s, words, 1);
    CountSameDifficulties(s, words, 2);
    CountSameDifficulties(s, words, 3);
    FreeUpToCount(s, 1, k1);
    FreeUpToCount(s, 2, k2);
    FreeUpToCount(s, 3, k3);
    FreeCountGraded(s);
  }

  /** A phase state whose prefixes reach the quota has the first `Quota` words of every difficulty free. */
  lemma PhaseQuotaMet(s: seq<Word>, words: seq<Word>, k1: nat, k2: nat, k3: nat)
    requires Phase(s, words, k1, k2, k3)
    requires Min(Quota, Count(words, 1)) <= k1 && Min(Quota, Count(words, 2)) <= k2 && Min(Quota, Count(words, 3)) <= k3
    ensures forall j :: 0 <= j < |words| && 1 <= words[j].difficulty <= 3 && Rank(words, j, words[j].difficulty) < Quota
              ==> s[j].isFree
  {
    assert SameDifficulties(s, words);
    forall j | 0 <= j < |words| && 1 <= words[j].difficulty <= 3 && Rank(words, j, words[j].difficulty) < Quota
      ensures s[j].isFree
    {
      var d := words[j].difficulty;
      assert FreeUpTo(s, d, Pick(d, k1, k2, k3)) && Min(Quota, Count(words, d)) <= Pick(d, k1, k2, k3);
      QuotaMetAt(s, words, d, Pick(d, k1, k2, k3), j);
    }
  }

  /** One word within its difficulty's quota is free once that difficulty's prefix reaches the quota. */
  lemma QuotaMetAt(s: seq<Word>, words: seq<Word>, d: int, k: nat, j: nat)
    requires SameDifficulties(s, words) && FreeUpTo(s, d, k) && Min(Quota, Count(words, d)) <= k
    requires j < |words| && words[j].difficulty == d && Rank(words, j, d) < Quota
    ensures s[j].isFree
  {
    RankStep(words, j, d);
    RankMonotone(words, j + 1, |words|, d);
    RankFull(words, d);
    assert Rank(words, j, d) < k;
    RankSameDifficulties(s, words, j, d);
    assert s[j].difficulty == d;
  }

  /** In a phase state within the words' counts, the free words per difficulty are exactly the prefix lengths. */
  lemma PhaseSplit(s: seq<Word>, words: seq<Word>, k1: nat, k2: nat, k3: nat)
    requires Phase(s, words, k1, k2, k3)
    requires k1 <= Count(words, 1) && k2 <= Count(words, 2) && k3 <= Count(words, 3)
    ensures Split(FreeOf(s, 1), FreeOf(s, 2), FreeOf(s, 3)) == Split(k1, k2, k3)
  {
    CountSameDifficulties(s, words, 1);
    CountSameDifficulties(s, words, 2);
    CountSameDifficulties(s, words, 3);
    FreeUpToCount(s, 1, k1);
    FreeUpToCount(s, 2, k2);
    FreeUpToCount(s, 3, k3);
  }

  /** One quota loop, with its effect on the phase state. */
  method QuotaStep(a: array<Word>, ghost words: seq<Word>, ghost k1: nat, ghost k2: nat, ghost k3: nat, d: int)
    returns (count: nat)
    requires Phase(a[..], words, k1, k2, k3) && 1 <= d <= 3 && Pick(d, k1, k2, k3) == 0
    modifies a
    ensures Phase(a[..], words, if d == 1 then count else k1, if d == 2 then count else k2, if d == 3 then count else k3)
    ensures count == Min(Quota, Count(words, d))
  {
    ghost var s := a[..];
    CountSameDifficulties(s, words, d);
    count := QuotaPass(a, d);
    PhaseMark(s, words, k1, k2, k3, d, count);
  }

  /** One backfill loop, with its effect on the phase state. */
  method BackfillStep(a: array<Word>, ghost words: seq<Word>, ghost k1: nat, ghost k2: nat, ghost k3: nat, d: int, freeCount: nat)
    returns (newCount: nat, ghost k: nat)
    requires Phase(a[..], words, k1, k2, k3) && 1 <= d <= 3 && freeCount <= TargetTotal
    modifies a
    ensures freeCount <= newCount <= TargetTotal
    ensures k == Pick(d, k1, k2, k3) + (newCount - freeCount)
    ensures newCount - freeCount == Min(TargetTotal - freeCount, Max0(Count(words, d) - Pick(d, k1, k2, k3)))
    ensures Phase(a[..], words, if d == 1 then k else k1, if d == 2 then k else k2, if d == 3 then k else k3)
  {
    ghost var s := a[..];
    ghost var q := Pick(d, k1, k2, k3);
    CountSameDifficulties(s, words, d);
    assert FreeUpTo(s, d, q);
    ghost var gap := Max0(Count(words, d) - q);
    assert gap == Max0(Count(s, d) - q);
    newCount := BackfillPass(a, d, q, freeCount);
    assert newCount - freeCount == Min(TargetTotal - freeCount, gap);
    k := q + (newCount - freeCount);
    assert a[..] == MarkFirst(s, d, k);
    PhaseMark(s, words, k1, k2, k3, d, k);
  }

  /** Lines 15-43: the three quota loops, hard, then medium, then easy, on an array with no word free. */
  method QuotaPhase(a: array<Word>, ghost words: seq<Word>) returns (easyCount: nat, mediumCount: nat, hardCount: nat)
    requires Phase(a[..], words, 0, 0, 0)
    modifies a
    ensures Phase(a[..], words, easyCount, mediumCount, hardCount)
    ensures hardCount == Min(Quota, Count(words, 3))
    ensures mediumCount == Min(Quota, Count(words, 2))
    ensures easyCount == Min(Quota, Count(words, 1))
  {
    hardCount := QuotaStep(a, words, 0, 0, 0, 3);
    mediumCount := QuotaStep(a, words, 0, 0, hardCount, 2);
    easyCount := QuotaStep(a, words, 0, mediumCount, hardCount, 1);
  }

  /** Free words per difficulty: 1 (easy), 2 (medium) and 3 (hard). */
  datatype Split = Split(easy: nat, medium: nat, hard: nat)

  /**
   * How many words of difficulty 1, 2 and 3 end up free when there are
   * `n1`, `n2` and `n3` of them: the quotas, then the remainder up to 15
   * taken from medium, then easy, then hard words.
   */
  function Waterfall(n1: nat, n2: nat, n3: nat): (k: Split)
    ensures k.easy <= n1 && k.medium <= n2 && k.hard <= n3
    ensures k.easy + k.medium + k.hard == Min(TargetTotal, n1 + n2 + n3)
  {
    var e, m, h := Min(Quota, n1), Min(Quota, n2), Min(Quota, n3);
    var f0 := e + m + h;
    if f0 >= TargetTotal then Split(e, m, h)
    else
      var bm := Min(TargetTotal - f0, n2 - m);
      var be := Min(TargetTotal - (f0 + bm), n1 - e);
      var bh := Min(TargetTotal - (f0 + bm + be), n3 - h);
      Split(e + be, m + bm, h + bh)
  }

  /**
   * The backfill order: every difficulty keeps its quota; easy words beyond
   * the quota are free only once every medium word is, and hard words beyond
   * the quota only once every easy and medium word is.
   */
  lemma WaterfallOrder(n1: nat, n2: nat, n3: nat)
    ensures var k := Waterfall(n1, n2, n3);
            && Min(Quota, n1) <= k.easy && Min(Quota, n2) <= k.medium && Min(Quota, n3) <= k.hard
            && (k.easy > Min(Quota, n1) ==> k.medium == n2)
            && (k.hard > Min(Quota, n3) ==> k.easy == n1 && k.medium == n2)
  {
  }

  /** Ten medium and ten hard words, no easy ones: ten medium and five hard words are free. */
  lemma WaterfallMediumFirst()
    ensures Waterfall(0, 10, 10) == Split(0, 10, 5)
  {
  }

  /** The counter arithmetic of the backfill: it tops the quota total up to `min(15, n1 + n2 + n3)`. */
  lemma WaterfallTotal(n1: nat, n2: nat, n3: nat, f1: nat, f2: nat, f3: nat)
    requires Min(Quota, n1) + Min(Quota, n2) + Min(Quota, n3) < TargetTotal
    requires f1 == Min(Quota, n1) + Min(Quota, n2) + Min(Quota, n3)
                   + Min(TargetTotal - (Min(Quota, n1) + Min(Quota, n2) + Min(Quota, n3)), Max0(n2 - Min(Quota, n2)))
    requires f1 <= TargetTotal && f2 == f1 + Min(TargetTotal - f1, Max0(n1 - Min(Quota, n1)))
    requires f2 <= TargetTotal && f3 == f2 + Min(TargetTotal - f2, Max0(n3 - Min(Quota, n3)))
    ensures f3 == Min(TargetTotal, n1 + n2 + n3)
  {
  }

  /** A quota phase that reaches the target leaves nothing to backfill: it already chose `min(15, n1 + n2 + n3)` words. */
  lemma QuotaFillsTarget(n1: nat, n2: nat, n3: nat)
    requires Min(Quota, n1) + Min(Quota, n2) + Min(Quota, n3) >= TargetTotal
    ensures Min(Quota, n1) + Min(Quota, n2) + Min(Quota, n3) == Min(TargetTotal, n1 + n2 + n3)
    ensures Waterfall(n1, n2, n3) == Split(Min(Quota, n1), Min(Quota, n2), Min(Quota, n3))
  {
  }

  /** Lines 48-77: the three backfill loops, medium, then easy, then hard, after a quota phase that left fewer than 15 free. */
  method Backfill(a: array<Word>, ghost words: seq<Word>, ghost e: nat, ghost m: nat, ghost h: nat, freeCount: nat)
    returns (newCount: nat, ghost k1: nat, ghost k2: nat, ghost k3: nat)
    requires Phase(a[..], words, e, m, h)
    requires e == Min(Quota, Count(words, 1)) && m == Min(Quota, Count(words, 2)) && h == Min(Quota, Count(words, 3))
    requires freeCount == e + m + h < TargetTotal
    modifies a
    ensures Phase(a[..], words, k1, k2, k3)
    ensures e <= k1 <= Count(words, 1) && m <= k2 <= Count(words, 2) && h <= k3 <= Count(words, 3)
    ensures newCount == k1 + k2 + k3
    ensures Split(k1, k2, k3) == Waterfall(Count(words, 1), Count(words, 2), Count(words, 3))
  {
    var f1, f2;
    f1, k2 := BackfillStep(a, words, e, m, h, 2, freeCount);
    f2, k1 := BackfillStep(a, words, e, k2, h, 1, f1);
    newCount, k3 := BackfillStep(a, words, k1, k2, h, 3, f2);
    BackfillTotals(Count(words, 1), Count(words, 2), Count(words, 3), e, m, h, freeCount, f1, f2, newCount, k1, k2, k3);
  }

  /** The counters of the three backfill passes: each difficulty stays within its words, and the total is `min(15, n1 + n2 + n3)`. */
  lemma BackfillTotals(n1: nat, n2: nat, n3: nat, e: nat, m: nat, h: nat, f0: nat, f1: nat, f2: nat, f3: nat, k1: nat, k2: nat, k3: nat)
    requires e == Min(Quota, n1) && m == Min(Quota, n2) && h == Min(Quota, n3)
    requires f0 == e + m + h < TargetTotal
    requires f0 <= f1 <= TargetTotal && k2 == m + (f1 - f0) && f1 - f0 == Min(TargetTotal - f0, Max0(n2 - m))
    requires f1 <= f2 <= TargetTotal && k1 == e + (f2 - f1) && f2 - f1 == Min(TargetTotal - f1, Max0(n1 - e))
    requires f2 <= f3 <= TargetTotal && k3 == h + (f3 - f2) && f3 - f2 == Min(TargetTotal - f2, Max0(n3 - h))
    ensures e <= k1 <= n1 && m <= k2 <= n2 && h <= k3 <= n3
    ensures f3 == k1 + k2 + k3 == Min(TargetTotal, n1 + n2 + n3)
    ensures Split(k1, k2, k3) == Waterfall(n1, n2, n3)
  {
    StepBounds(n2, m, f0, f1, k2);
    StepBounds(n1, e, f1, f2, k1);
    StepBounds(n3, h, f2, f3, k3);
    WaterfallTotal(n1, n2, n3, f1, f2, f3);
  }

  /** A backfill pass that starts from `q <= n` words of its difficulty free ends with between `q` and `n` of them free. */
  lemma StepBounds(n: nat, q: nat, f: nat, g: nat, k: nat)
    requires q <= n && f <= g && k == q + (g - f)
    requires g - f == Min(TargetTotal - f, Max0(n - q))
    ensures q <= k <= n
  {
  }

  /** Any phase state whose prefix lengths are the waterfall split of the words is a finished result. */
  lemma PhaseOutcome(s: seq<Word>, words: seq<Word>, k1: nat, k2: nat, k3: nat)
    requires Phase(s, words, k1, k2, k3)
    requires Split(k1, k2, k3) == Waterfall(Count(words, 1), Count(words, 2), Count(words, 3))
    ensures FreeOnlyGraded(s)
    ensures FreeCount(s) == k1 + k2 + k3 == Min(TargetTotal, Count(words, 1) + Count(words, 2) + Count(words, 3))
    ensures forall d :: 1 <= d <= 3 ==> FreeUpTo(s, d, FreeOf(s, d))
    ensures forall j :: 0 <= j < |words| && 1 <= words[j].difficulty <= 3 && Rank(words, j, words[j].difficulty) < Quota
              ==> s[j].isFree
    ensures Split(FreeOf(s, 1), FreeOf(s, 2), FreeOf(s, 3)) == Waterfall(Count(words, 1), Count(words, 2), Count(words, 3))
  {
    WaterfallOrder(Count(words, 1), Count(words, 2), Count(words, 3));
    PhaseFinal(s, words, k1, k2, k3);
    PhaseQuotaMet(s, words, k1, k2, k3);
    PhaseSplit(s, words, k1, k2, k3);
  }

  /**
   * The selection body of `processFile`: `words` is the parsed file, `result`
   * what is written back. The counters are the ones the script reports.
   */
  method ApplyFreemiumRules(words: seq<Word>)
    returns (result: seq<Word>, freeCount: nat, easyCount: nat, mediumCount: nat, hardCount: nat)
    ensures |result| == |words|
    ensures forall j :: 0 <= j < |words| ==> result[j] == words[j].(isFree := result[j].isFree)
    ensures FreeOnlyGraded(result)
    ensures hardCount == Min(Quota, Count(words, 3))
    ensures mediumCount == Min(Quota, Count(words, 2))
    ensures easyCount == Min(Quota, Count(words, 1))
    ensures freeCount == FreeCount(result)
    ensures freeCount == Min(TargetTotal, Count(words, 1) + Count(words, 2) + Count(words, 3))
    ensures forall d :: 1 <= d <= 3 ==> FreeUpTo(result, d, FreeOf(result, d))
    ensures forall j :: 0 <= j < |words| && 1 <= words[j].difficulty <= 3 && Rank(words, j, words[j].difficulty) < Quota
              ==> result[j].isFree
    ensures Split(FreeOf(result, 1), FreeOf(result, 2), FreeOf(result, 3)) == Waterfall(Count(words, 1), Count(words, 2), Count(words, 3))
  {
    // Line 11: a fresh array of copies with the flag cleared.
    var a := new Word[|words|](j requires 0 <= j < |words| => words[j].(isFree := false));
    assert Phase(a[..], words, 0, 0, 0);

    // Lines 15-43: the quota phase.
    easyCount, mediumCount, hardCount := QuotaPhase(a, words);
    freeCount := hardCount + mediumCount + easyCount;
    ghost var k1, k2, k3 := easyCount, mediumCount, hardCount;

    // Lines 48-77: the backfill, medium, then easy, then hard.
    if freeCount < TargetTotal {
      freeCount, k1, k2, k3 := Backfill(a, words, k1, k2, k3, freeCount);
    } else {
      QuotaFillsTarget(Count(words, 1), Count(words, 2), Count(words, 3));
    }

    result := a[..];
    PhaseOutcome(result, words, k1, k2, k3);
  }
}
