/**
 * The question generator for uploaded notes: the text is cut into sentences at '.', the
 * long ones are shuffled, and the first twenty become five multiple-choice, five
 * very-short, five short and five long questions built from each sentence's first five
 * words. Text extraction from PDF and the cleaning regular expressions are outside the
 * model; the generator starts from the extracted text.
 */
module TextQuestions {

  import opened Common
  import opened Strings
  import opened QuestionBank

  /** shorten: the first five words, capitalised. */
  function Shorten(q: string): string {
    Capitalize(WordWindow(q, 0, 5))
  }

  /**
   * A shortened question has the first five words of the original, or all of them when
   * there are fewer; up to case they are the same words.
   */
  lemma ShortenWords(q: string)
    ensures |Words(Shorten(q))| == Min(5, |Words(q)|)
    ensures Words(Lower(Shorten(q))) == MapSeq(Lower, Slice(Words(q), 0, 5))
  {
    var w := WordWindow(q, 0, 5);
    assert |Words(w)| == Min(5, |Words(q)|);
    CapitalizeSameSpaces(w);
    WordsCountSameSpaces(w, Capitalize(w));
    CapitalizeLower(w);
    WordsOfLower(w);
  }

  // ---------------------------------------------------------------------------
  // Sentences

  /** The comprehension's filter: the stripped pieces longer than 30 characters, in order. */
  function LongOnes(ts: seq<string>): (r: seq<string>)
    ensures |r| <= |ts|
    ensures forall k :: 0 <= k < |r| ==> |r[k]| > 30
  {
    if ts == [] then []
    else (if |ts[0]| > 30 then [ts[0]] else []) + LongOnes(ts[1..])
  }

  lemma {:induction false} LongOnesSound(ts: seq<string>, k: nat)
    requires k < |LongOnes(ts)|
    ensures exists j :: 0 <= j < |ts| && LongOnes(ts)[k] == ts[j]
    decreases |ts|
  {
    var head := if |ts[0]| > 30 then [ts[0]] else [];
    var rest := LongOnes(ts[1..]);
    if k < |head| {
      assert LongOnes(ts)[k] == ts[0];
    } else {
      assert LongOnes(ts)[k] == rest[k - |head|];
      LongOnesSound(ts[1..], k - |head|);
      var j :| 0 <= j < |ts[1..]| && rest[k - |head|] == ts[1..][j];
      assert LongOnes(ts)[k] == ts[j + 1];
    }
  }

  lemma {:induction false} LongOnesComplete(ts: seq<string>, j: nat)
    requires j < |ts| && |ts[j]| > 30
    ensures ts[j] in LongOnes(ts)
    decreases |ts|
  {
    if j > 0 {
      assert ts[1..][j - 1] == ts[j];
      LongOnesComplete(ts[1..], j - 1);
    }
  }

  /** The comprehension over the pieces: each piece stripped, kept when longer than 30. */
  function KeepLong(pieces: seq<string>): (r: seq<string>)
    ensures |r| <= |pieces|
    ensures forall k :: 0 <= k < |r| ==> |r[k]| > 30
  {
    LongOnes(MapSeq(Strip, pieces))
  }

  /** Each kept sentence is the stripped form of some piece. */
  lemma KeepLongSound(pieces: seq<string>, k: nat)
    requires k < |KeepLong(pieces)|
    ensures exists j :: 0 <= j < |pieces| && KeepLong(pieces)[k] == Strip(pieces[j])
  {
    var ts := MapSeq(Strip, pieces);
    LongOnesSound(ts, k);
    var j :| 0 <= j < |ts| && LongOnes(ts)[k] == ts[j];
    MapSeqAt(Strip, pieces, j);
  }

  /** Every piece whose stripped form is longer than 30 is kept. */
  lemma KeepLongComplete(pieces: seq<string>, j: nat)
    requires j < |pieces| && |Strip(pieces[j])| > 30
    ensures Strip(pieces[j]) in KeepLong(pieces)
  {
    var ts := MapSeq(Strip, pieces);
    MapSeqAt(Strip, pieces, j);
    LongOnesComplete(ts, j);
  }

  /** The sentences of a text: its pieces between full stops, stripped, keeping only those longer than 30 characters, in order. */
  function Sentences(text: string): seq<string> {
    KeepLong(SplitOn(text, '.'))
  }

  /** Every sentence is a stripped, '.'-free piece of the text longer than 30 characters. */
  lemma SentenceShape(text: string, k: nat)
    requires k < |Sentences(text)|
    ensures var s := Sentences(text)[k];
      |s| > 30 && '.' !in s && !IsSpace(s[0]) && !IsSpace(s[|s| - 1])
  {
    var pieces := SplitOn(text, '.');
    KeepLongSound(pieces, k);
    var j :| 0 <= j < |pieces| && KeepLong(pieces)[k] == Strip(pieces[j]);
    StripKeepsOut(pieces[j], '.');
  }

  /** Every piece between full stops whose stripped form is longer than 30 characters becomes a sentence. */
  lemma SentenceKept(text: string, j: nat)
    requires j < |SplitOn(text, '.')| && |Strip(SplitOn(text, '.')[j])| > 30
    ensures Strip(SplitOn(text, '.')[j]) in Sentences(text)
  {
    KeepLongComplete(SplitOn(text, '.'), j);
  }

  // ---------------------------------------------------------------------------
  // Questions

  datatype Mcq = Mcq(question: string, options: seq<string>, answer: string)

  /** The dictionary returned: MCQ, Very Short, Short and Long. */
  datatype QuestionSet = QuestionSet(mcq: seq<Mcq>, veryShort: seq<string>, short: seq<string>, long: seq<string>)

  /** The five question patterns, filled with the concept (the second takes it twice); the loop only uses k < 5. */
  function Pattern(k: nat, c: string): string {
    if k == 0 then "Write a detailed note on " + c
    else if k == 1 then "Explain the difference between " + c + " and " + c
    else if k == 2 then "Explain the types of " + c
    else if k == 3 then "Describe the architecture of " + c
    else "Explain the concept of " + c
  }

  /** The concept a sentence is about: its first five words, joined by single spaces. */
  function Concept(s: string): string {
    WordWindow(s, 0, 5)
  }

  /** A concept is the sentence's first five words, or all of them when there are fewer. */
  lemma ConceptWords(s: string)
    ensures Words(Concept(s)) == Slice(Words(s), 0, 5)
    ensures |Words(Concept(s))| == Min(5, |Words(s)|)
  {
  }

  /** The choices offered with a concept: the concept followed by " Option A" to " Option D". */
  function OptionsFor(c: string): seq<string> {
    [c + " Option A", c + " Option B", c + " Option C", c + " Option D"]
  }

  /** The multiple-choice question at offset k of its group; the answer is the first option. */
  function McqFor(k: nat, c: string): Mcq {
    Mcq(Pattern(k, c), OptionsFor(c), OptionsFor(c)[0])
  }

  function DefineBriefly(c: string): string {
    "Define briefly: " + c
  }

  function ExplainShortly(q: string): string {
    "Explain shortly: " + q
  }

  /** The very-short question at offset k of its group. */
  function VeryShortFor(k: nat, c: string): string {
    DefineBriefly(c)
  }

  /** The short question at offset k of its group. */
  function ShortFor(k: nat, c: string): string {
    ExplainShortly(Pattern(k, c))
  }

  /** Number of sentences at positions lo up to (not including) hi among the first n. */
  function BucketSize(n: nat, lo: nat, hi: nat): (b: nat)
    requires lo <= hi
    ensures b <= hi - lo
  {
    if n <= lo then 0 else if n >= hi then hi - lo else n - lo
  }

  /** The questions of one kind: f applied to offset k and concept lo + k, for the positions lo to hi - 1 among the first n. */
  function Bucket<T>(f: (nat, string) -> T, cs: seq<string>, n: nat, lo: nat, hi: nat): (b: seq<T>)
    requires lo <= hi && n <= |cs|
    ensures |b| == BucketSize(n, lo, hi)
    ensures forall k :: 0 <= k < |b| ==> b[k] == f(k, cs[lo + k])
  {
    seq(BucketSize(n, lo, hi), k requires 0 <= k < BucketSize(n, lo, hi) => f(k, cs[lo + k]))
  }

  /** One more position adds one question to the kind whose range holds it, and none to the others. */
  lemma BucketGrow<T>(f: (nat, string) -> T, cs: seq<string>, n: nat, lo: nat, hi: nat)
    requires lo <= hi && n < |cs|
    ensures Bucket(f, cs, n + 1, lo, hi) ==
      if lo <= n < hi then Bucket(f, cs, n, lo, hi) + [f(n - lo, cs[n])] else Bucket(f, cs, n, lo, hi)
  {
    var a := Bucket(f, cs, n + 1, lo, hi);
    var b := if lo <= n < hi then Bucket(f, cs, n, lo, hi) + [f(n - lo, cs[n])] else Bucket(f, cs, n, lo, hi);
    assert |a| == |b|;
    forall k | 0 <= k < |a| ensures a[k] == b[k] {
    }
  }

  /** The questions built from the first n concepts. */
  function QuestionsOf(cs: seq<string>, n: nat): QuestionSet
    requires n <= |cs|
  {
    QuestionSet(Bucket(McqFor, cs, n, 0, 5), Bucket(VeryShortFor, cs, n, 5, 10),
                Bucket(ShortFor, cs, n, 10, 15), Bucket(Pattern, cs, n, 15, 20))
  }

  /** The questions generated from a shuffled list of sentences: position i of the first twenty decides the kind. */
  function Generated(sh: seq<string>): QuestionSet {
    QuestionsOf(MapSeq(Concept, sh), Min(20, |sh|))
  }

  /** generate_questions_from_text, with the shuffle's random numbers as a parameter. */
  method GenerateQuestionsFromText(text: string, draws: nat -> int) returns (qs: QuestionSet)
    ensures qs == Generated(Shuffled(Sentences(text), draws))
  {
    var sentences := Sentences(text);
    qs := QuestionsFromSentences(sentences, draws);
  }

  /** random.shuffle(sentences) followed by the loop over the first twenty. */
  method QuestionsFromSentences(sentences: seq<string>, draws: nat -> int) returns (qs: QuestionSet)
    ensures qs == Generated(Shuffled(sentences, draws))
  {
    var a := new string[|sentences|](k requires 0 <= k < |sentences| => sentences[k]);
    assert a[..] == sentences;
    Shuffle(a, draws);
    qs := QuestionsFrom(a[..]);
    BuiltIsQuestionsOf(MapSeq(Concept, a[..]), Min(20, |sentences|));
  }

  /** The loop over the first twenty shuffled sentences. */
  method QuestionsFrom(sh: seq<string>) returns (qs: QuestionSet)
    ensures qs == Built(MapSeq(Concept, sh), Min(20, |sh|))
  {
    var n := if |sh| < 20 then |sh| else 20;
    ghost var cs := MapSeq(Concept, sh);
    var mcqs, veryShort, shortQs, longQs := [], [], [], [];
    for i := 0 to n
      invariant QuestionSet(mcqs, veryShort, shortQs, longQs) == Built(cs, i)
    {
      var conceptText := Concept(sh[i]);
      MapSeqAt(Concept, sh, i);
      var p := i % 5;
      PatternIndex(i);
      if i < 5 {
        var options := OptionsFor(conceptText);
        mcqs := mcqs + [Mcq(Pattern(p, conceptText), options, options[0])];
      } else if i < 10 {
        veryShort := veryShort + [DefineBriefly(conceptText)];
      } else if i < 15 {
        shortQs := shortQs + [ExplainShortly(Pattern(p, conceptText))];
      } else {
        longQs := longQs + [Pattern(p, conceptText)];
      }
    }
    qs := QuestionSet(mcqs, veryShort, shortQs, longQs);
  }

  /** The pattern chosen at position i is its offset within its group of five. */
  lemma PatternIndex(i: nat)
    requires i < 20
    ensures i < 5 ==> i % 5 == i
    ensures 5 <= i < 10 ==> i % 5 == i - 5
    ensures 10 <= i < 15 ==> i % 5 == i - 10
    ensures 15 <= i ==> i % 5 == i - 15
  {
  }

  /** The question for position i, added to the list of its kind. */
  function AddQuestion(qs: QuestionSet, i: nat, c: string): QuestionSet {
    if i < 5 then qs.(mcq := qs.mcq + [McqFor(i, c)])
    else if i < 10 then qs.(veryShort := qs.veryShort + [VeryShortFor(i - 5, c)])
    else if i < 15 then qs.(short := qs.short + [ShortFor(i - 10, c)])
    else if i < 20 then qs.(long := qs.long + [Pattern(i - 15, c)])
    else qs
  }

  /** The questions after the first n steps of the loop, given the concept of each sentence. */
  function Built(cs: seq<string>, n: nat): QuestionSet
    requires n <= |cs|
  {
    if n == 0 then QuestionSet([], [], [], []) else AddQuestion(Built(cs, n - 1), n - 1, cs[n - 1])
  }

  /** Adding one question at a time yields the four lists described position by position. */
  lemma {:induction false} BuiltIsQuestionsOf(cs: seq<string>, n: nat)
    requires n <= |cs|
    ensures Built(cs, n) == QuestionsOf(cs, n)
  {
    if n == 0 {
      assert QuestionsOf(cs, 0) == QuestionSet([], [], [], []);
    } else {
      BuiltIsQuestionsOf(cs, n - 1);
      BucketGrow(McqFor, cs, n - 1, 0, 5);
      BucketGrow(VeryShortFor, cs, n - 1, 5, 10);
      BucketGrow(ShortFor, cs, n - 1, 10, 15);
      BucketGrow(Pattern, cs, n - 1, 15, 20);
    }
  }

  /** At most twenty questions, five per kind, filled in the order MCQ, very short, short, long. */
  lemma GeneratedSizes(sh: seq<string>)
    ensures var g := Generated(sh);
      && |g.mcq| + |g.veryShort| + |g.short| + |g.long| == Min(20, |sh|)
      && |g.mcq| <= 5 && |g.veryShort| <= 5 && |g.short| <= 5 && |g.long| <= 5
      && (|g.veryShort| > 0 ==> |g.mcq| == 5)
      && (|g.short| > 0 ==> |g.veryShort| == 5)
      && (|g.long| > 0 ==> |g.short| == 5)
  {
  }

  /** The generator asks as many questions as there are long sentences, up to twenty. */
  lemma GeneratedCount(text: string, draws: nat -> int)
    ensures var g := Generated(Shuffled(Sentences(text), draws));
      |g.mcq| + |g.veryShort| + |g.short| + |g.long| == Min(20, |Sentences(text)|)
  {
    ShuffledPermutes(Sentences(text), draws);
    GeneratedSizes(Shuffled(Sentences(text), draws));
  }

  /** Every multiple-choice question offers four different options and its answer is the first. */
  lemma McqWellFormed(sh: seq<string>)
    ensures forall k :: 0 <= k < |Generated(sh).mcq| ==>
      var m := Generated(sh).mcq[k];
      && |m.options| == 4 && m.answer == m.options[0] && m.answer in m.options
      && forall x, y :: 0 <= x < y < 4 ==> m.options[x] != m.options[y]
  {
    forall k | 0 <= k < |Generated(sh).mcq|
      ensures var m := Generated(sh).mcq[k];
        forall x, y :: 0 <= x < y < 4 ==> m.options[x] != m.options[y]
    {
      var c := MapSeq(Concept, sh)[k];
      var o := OptionsFor(c);
      assert Generated(sh).mcq[k] == McqFor(k, c);
      forall x, y | 0 <= x < y < 4 ensures o[x] != o[y] {
        assert o[x][|c| + 8] != o[y][|c| + 8];
      }
    }
  }
}
