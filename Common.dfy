/** Small value types shared by the planner, the question bank and the quiz session. */
module Common {

  datatype Option<+T> = None | Some(value: T)

  /** The three difficulty labels offered by every selector of the application. */
  datatype Difficulty = Easy | Medium | Hard

  /** Weight of a difficulty in the study-time split: Easy 1, Medium 2, Hard 3. */
  function Weight(d: Difficulty): (w: nat)
    ensures 1 <= w <= 3
    ensures d == Easy <==> w == 1
    ensures d == Hard <==> w == 3
  {
    match d
    case Easy => 1
    case Medium => 2
    case Hard => 3
  }

  function Min(a: int, b: int): (m: int)
    ensures m <= a && m <= b && (m == a || m == b)
  {
    if a <= b then a else b
  }

  /** The list of f applied to each element of s, in order. */
  function MapSeq<A, B>(f: A -> B, s: seq<A>): (r: seq<B>)
    ensures |r| == |s|
  {
    if s == [] then [] else MapSeq(f, s[..|s| - 1]) + [f(s[|s| - 1])]
  }

  lemma {:induction false} MapSeqAt<A, B>(f: A -> B, s: seq<A>, k: nat)
    requires k < |s|
    ensures MapSeq(f, s)[k] == f(s[k])
  {
    if k < |s| - 1 {
      MapSeqAt(f, s[..|s| - 1], k);
    }
  }

  /** Mapping distributes over concatenation. */
  lemma {:induction false} MapSeqAppend<A, B>(f: A -> B, s1: seq<A>, s2: seq<A>)
    ensures MapSeq(f, s1 + s2) == MapSeq(f, s1) + MapSeq(f, s2)
    decreases |s2|
  {
    if s2 == [] {
      assert s1 + s2 == s1;
    } else {
      var s := s1 + s2;
      var s2' := s2[..|s2| - 1];
      assert s[..|s| - 1] == s1 + s2';
      assert s[|s| - 1] == s2[|s2| - 1];
      MapSeqAppend(f, s1, s2');
    }
  }
}
