/**
 * The static multiple-choice bank and the quiz sampler: looking up the pool for a subject
 * and difficulty, shuffling a copy of it the way Python's random.shuffle does, and keeping
 * the first n questions. The bank's literal contents are not modelled: it is any immutable
 * map from lower-case subject to difficulty to records. The random numbers the shuffle
 * draws are a parameter (draws(k) is the k-th number drawn), so every order is possible.
 */
module QuestionBank {

  import opened Common
  import opened Strings

  /** The two record shapes found in the bank: keys q/options/ans and question/options/answer. */
  datatype RawQuestion =
    | ShortKeys(q: string, options: seq<string>, ans: string)
    | LongKeys(question: string, options: seq<string>, answer: string)

  type Bank = map<string, map<Difficulty, seq<RawQuestion>>>

  /**
   * The correct answer of a record: its short-key answer when that is non-empty, else its
   * long-key answer; a short-keys record with an empty answer has no long-key one, so none.
   */
  function CorrectAnswer(r: RawQuestion): (a: Option<string>)
    ensures r.LongKeys? ==> a == Some(r.answer)
    ensures r.ShortKeys? ==> (a.None? <==> r.ans == "")
    ensures a.Some? ==> a.value == (if r.ShortKeys? then r.ans else r.answer)
  {
    match r
    case ShortKeys(_, _, ans) => if ans != "" then Some(ans) else None
    case LongKeys(_, _, answer) => Some(answer)
  }

  /** The prompt of a record, with the same fallback from an empty short-key prompt to the long-key one. */
  function PromptText(r: RawQuestion): (p: Option<string>)
    ensures r.LongKeys? ==> p == Some(r.question)
    ensures r.ShortKeys? ==> (p.None? <==> r.q == "")
    ensures p.Some? ==> p.value == (if r.ShortKeys? then r.q else r.question)
  {
    match r
    case ShortKeys(q, _, _) => if q != "" then Some(q) else None
    case LongKeys(question, _, _) => Some(question)
  }

  /** The two record shapes are read alike: the same non-empty prompt, options and answer give the same question. */
  lemma ShapesReadAlike(q: string, options: seq<string>, a: string)
    requires q != "" && a != ""
    ensures CorrectAnswer(ShortKeys(q, options, a)) == CorrectAnswer(LongKeys(q, options, a)) == Some(a)
    ensures PromptText(ShortKeys(q, options, a)) == PromptText(LongKeys(q, options, a)) == Some(q)
    ensures ShortKeys(q, options, a).options == LongKeys(q, options, a).options
  {
  }

  /** get_available_questions: the pool for the lower-cased subject and the difficulty, or []. */
  function Pool(bank: Bank, subject: string, d: Difficulty): (pool: seq<RawQuestion>)
    ensures Lower(subject) !in bank ==> pool == []
    ensures Lower(subject) in bank && d !in bank[Lower(subject)] ==> pool == []
    ensures Lower(subject) in bank && d in bank[Lower(subject)] ==> pool == bank[Lower(subject)][d]
  {
    var s := Lower(subject);
    if s in bank && d in bank[s] then bank[s][d] else []
  }

  /** The lookup ignores the case of the subject. */
  lemma PoolIgnoresCase(bank: Bank, s1: string, s2: string, d: Difficulty)
    requires Lower(s1) == Lower(s2)
    ensures Pool(bank, s1, d) == Pool(bank, s2, d)
  {
  }

  // ---------------------------------------------------------------------------
  // random.shuffle

  function Swap<T>(s: seq<T>, i: nat, j: nat): (r: seq<T>)
    requires i < |s| && j < |s|
    ensures |r| == |s| && r[i] == s[j] && r[j] == s[i]
    ensures forall k :: 0 <= k < |s| && k != i && k != j ==> r[k] == s[k]
  {
    s[i := s[j]][j := s[i]]
  }

  lemma SwapPermutes<T>(s: seq<T>, i: nat, j: nat)
    requires i < |s| && j < |s|
    ensures multiset(Swap(s, i, j)) == multiset(s)
  {
  }

  /** The position the shuffle swaps with position i: randbelow(i + 1). */
  function Partner(n: nat, i: nat, draws: nat -> int): (j: nat)
    requires i < n
    ensures j <= i
  {
    draws(n - 1 - i) % (i + 1)
  }

  /** The swaps of random.shuffle for positions i, i - 1, ..., 1 applied to s. */
  function ShuffleFrom<T>(s: seq<T>, i: int, draws: nat -> int): seq<T>
    requires i < |s|
    decreases i
  {
    if i <= 0 then s
    else ShuffleFrom(Swap(s, i, Partner(|s|, i, draws)), i - 1, draws)
  }

  /** random.shuffle(x) applied to a copy of s. */
  function Shuffled<T>(s: seq<T>, draws: nat -> int): seq<T> {
    ShuffleFrom(s, |s| - 1, draws)
  }

  /** Shuffling only reorders: the result has the same length and the same elements. */
  lemma {:induction false} ShuffleFromPermutes<T>(s: seq<T>, i: int, draws: nat -> int)
    requires i < |s|
    ensures |ShuffleFrom(s, i, draws)| == |s|
    ensures multiset(ShuffleFrom(s, i, draws)) == multiset(s)
    decreases i
  {
    if i > 0 {
      SwapPermutes(s, i, Partner(|s|, i, draws));
      ShuffleFromPermutes(Swap(s, i, Partner(|s|, i, draws)), i - 1, draws);
    }
  }

  lemma ShuffledPermutes<T>(s: seq<T>, draws: nat -> int)
    ensures |Shuffled(s, draws)| == |s|
    ensures multiset(Shuffled(s, draws)) == multiset(s)
  {
    ShuffleFromPermutes(s, |s| - 1, draws);
  }

  /** random.shuffle on the array in place. */
  method Shuffle<T>(a: array<T>, draws: nat -> int)
    modifies a
    ensures a[..] == Shuffled(old(a[..]), draws)
  {
    var i := a.Length - 1;
    while i > 0
      invariant i < a.Length
      invariant ShuffleFrom(a[..], i, draws) == Shuffled(old(a[..]), draws)
      decreases i
    {
      var j := draws(a.Length - 1 - i) % (i + 1);
      ghost var before := a[..];
      assert j == Partner(|before|, i, draws);
      assert ShuffleFrom(before, i, draws) == ShuffleFrom(Swap(before, i, j), i - 1, draws);
      a[i], a[j] := a[j], a[i];
      assert a[..] == Swap(before, i, j) by {
        assert forall k :: 0 <= k < a.Length ==> a[..][k] == Swap(before, i, j)[k];
      }
      i := i - 1;
    }
  }

  // ---------------------------------------------------------------------------
  // sample_questions

  /** Python's s[:n]: a prefix, counted from the end for a negative n. */
  function Head<T>(s: seq<T>, n: int): (r: seq<T>)
    ensures |r| == if n >= |s| then |s| else if n >= 0 then n else if |s| + n > 0 then |s| + n else 0
    ensures r == s[..|r|]
  {
    if n >= |s| then s
    else if n >= 0 then s[..n]
    else if |s| + n > 0 then s[..|s| + n]
    else []
  }

  /** The questions sample_questions returns for a given sequence of random draws. */
  function Sample(bank: Bank, subject: string, d: Difficulty, n: int, draws: nat -> int): seq<RawQuestion> {
    var pool := Pool(bank, subject, d);
    if pool == [] then [] else Head(Shuffled(pool, draws), n)
  }

  /** sample_questions: up to n questions of the pool, in shuffled order, without repeats. */
  method SampleQuestions(bank: Bank, subject: string, d: Difficulty, n: int, draws: nat -> int)
    returns (r: seq<RawQuestion>)
    ensures r == Sample(bank, subject, d, n, draws)
    ensures Pool(bank, subject, d) == [] ==> r == []
    ensures n >= 0 ==> |r| == Min(n, |Pool(bank, subject, d)|)
    ensures multiset(r) <= multiset(Pool(bank, subject, d))
  {
    var pool := Pool(bank, subject, d);
    if |pool| == 0 {
      return [];
    }
    var a := new RawQuestion[|pool|](k requires 0 <= k < |pool| => pool[k]);
    assert a[..] == pool;
    Shuffle(a, draws);
    ShuffledPermutes(pool, draws);
    if n >= a.Length {
      r := a[..];
    } else {
      r := Head(a[..], n);
    }
    PrefixSubMultiset(a[..], |r|);
  }

  lemma PrefixSubMultiset<T>(s: seq<T>, k: nat)
    requires k <= |s|
    ensures multiset(s[..k]) <= multiset(s)
  {
    assert s == s[..k] + s[k..];
  }

  /** The sample never holds more copies of a question than the pool does. */
  lemma SampleWithinPool(bank: Bank, subject: string, d: Difficulty, n: int, draws: nat -> int)
    ensures multiset(Sample(bank, subject, d, n, draws)) <= multiset(Pool(bank, subject, d))
    ensures n >= 0 ==> |Sample(bank, subject, d, n, draws)| == Min(n, |Pool(bank, subject, d)|)
  {
    var pool := Pool(bank, subject, d);
    if pool != [] {
      ShuffledPermutes(pool, draws);
      var sh := Shuffled(pool, draws);
      PrefixSubMultiset(sh, |Head(sh, n)|);
    }
  }

  ghost predicate Distinct<T>(s: seq<T>) {
    forall i, j :: 0 <= i < j < |s| ==> s[i] != s[j]
  }

  lemma {:induction false} DistinctCounts<T>(s: seq<T>)
    requires Distinct(s)
    ensures forall x :: multiset(s)[x] <= 1
  {
    if s != [] {
      var p := s[..|s| - 1];
      assert Distinct(p);
      DistinctCounts(p);
      assert s == p + [s[|s| - 1]];
      assert s[|s| - 1] !in p;
    }
  }

  lemma CountsDistinct<T>(s: seq<T>)
    requires forall x :: multiset(s)[x] <= 1
    ensures Distinct(s)
  {
    forall i, j | 0 <= i < j < |s| ensures s[i] != s[j] {
      assert s == s[..j] + [s[j]] + s[j + 1..];
      assert s[i] == s[..j][i];
      assert multiset(s[..j])[s[i]] >= 1;
      assert multiset(s)[s[j]] >= multiset(s[..j])[s[j]] + 1;
      assert multiset(s)[s[i]] <= 1;
    }
  }

  /** A pool without duplicates yields a sample without duplicates. */
  lemma SampleNoRepeats(bank: Bank, subject: string, d: Difficulty, n: int, draws: nat -> int)
    requires Distinct(Pool(bank, subject, d))
    ensures Distinct(Sample(bank, subject, d, n, draws))
  {
    var pool := Pool(bank, subject, d);
    var r := Sample(bank, subject, d, n, draws);
    SampleWithinPool(bank, subject, d, n, draws);
    DistinctCounts(pool);
    forall x ensures multiset(r)[x] <= 1 {
      assert multiset(r)[x] <= multiset(pool)[x];
    }
    CountsDistinct(r);
  }

  /** Asking for at least the whole pool returns all of it, reordered. */
  lemma SampleWholePool(bank: Bank, subject: string, d: Difficulty, n: int, draws: nat -> int)
    requires n >= |Pool(bank, subject, d)|
    ensures multiset(Sample(bank, subject, d, n, draws)) == multiset(Pool(bank, subject, d))
  {
    var pool := Pool(bank, subject, d);
    if pool != [] {
      ShuffledPermutes(pool, draws);
    }
  }
}
