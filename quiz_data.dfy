/**
 * The local question set and its shuffled copy. The comparator sort with
 * `Math.random() - 0.5` is modelled as an arbitrary permutation, chosen by a
 * sequence of picks: each pick selects, modulo the number of elements still
 * left, the element that comes next.
 */
module QuizData {

  /** A static question record. */
  datatype Record = Record(id: int, question: string, options: seq<string>, answer: string)

  /** The `questions` table. */
  function Questions(): (qs: seq<Record>)
    ensures |qs| == 3
    ensures forall k :: 0 <= k < |qs| ==> qs[k].answer in qs[k].options
    ensures forall i, j :: 0 <= i < j < |qs| ==> qs[i].id != qs[j].id
  {
    [ Record(1, "What is the capital of France?", ["Paris", "London", "Berlin", "Madrid"], "Paris"),
      Record(2, "What is 5 + 3?", ["5", "8", "9", "7"], "8"),
      Record(3, "Which language is used for Android development?", ["Swift", "Kotlin", "JavaScript", "Python"], "Kotlin") ]
  }

  /** The index the next pick selects among n remaining elements (0 when picks run out). */
  function NextIndex(picks: seq<nat>, n: nat): (i: nat)
    requires n > 0
    ensures i < n
  {
    (if |picks| == 0 then 0 else picks[0]) % n
  }

  /** The picks left after the next one. */
  function LaterPicks(picks: seq<nat>): seq<nat> {
    if |picks| == 0 then [] else picks[1..]
  }

  /** s without its element at index i. */
  function Without<T>(s: seq<T>, i: nat): (r: seq<T>)
    requires i < |s|
    ensures |r| == |s| - 1
  {
    s[..i] + s[i + 1..]
  }

  lemma WithoutMultiset<T>(s: seq<T>, i: nat)
    requires i < |s|
    ensures multiset(s) == multiset(Without(s, i)) + multiset{s[i]}
  {
    assert s == s[..i] + [s[i]] + s[i + 1..];
  }

  /** The sequence s in the order the picks choose: a reordering of s. */
  function Pick<T>(s: seq<T>, picks: seq<nat>): (t: seq<T>)
    ensures |t| == |s|
    decreases |s|
  {
    if |s| == 0 then []
    else
      var i := NextIndex(picks, |s|);
      [s[i]] + Pick(Without(s, i), LaterPicks(picks))
  }

  /** Picking keeps every element, as often as it occurs. */
  lemma {:induction false} PickPermutes<T>(s: seq<T>, picks: seq<nat>)
    ensures multiset(Pick(s, picks)) == multiset(s)
    decreases |s|
  {
    if |s| > 0 {
      var i := NextIndex(picks, |s|);
      PickPermutes(Without(s, i), LaterPicks(picks));
      WithoutMultiset(s, i);
    }
  }

  /** Every permutation of s is the result of some picks, so Pick covers all orders. */
  lemma {:induction false} EveryOrderIsPicked<T>(s: seq<T>, t: seq<T>)
    requires multiset(s) == multiset(t)
    ensures exists picks :: Pick(s, picks) == t
    decreases |s|
  {
    assert |t| == |s| by {
      assert |multiset(t)| == |multiset(s)|;
    }
    if |s| == 0 {
      assert Pick(s, []) == t;
    } else {
      var i := IndexOf(s, t[0]);
      RemainingMatch(s, t, i);
      EveryOrderIsPicked(Without(s, i), t[1..]);
      var more :| Pick(Without(s, i), more) == t[1..];
      PickFirst(s, i, more);
      assert Pick(s, [i] + more) == t;
    }
  }

  /** A first pick of i followed by more picks s[i] and then picks the rest by more. */
  lemma PickFirst<T>(s: seq<T>, i: nat, more: seq<nat>)
    requires i < |s|
    ensures Pick(s, [i] + more) == [s[i]] + Pick(Without(s, i), more)
  {
    var picks := [i] + more;
    assert picks[0] == i && picks[1..] == more;
    assert i % |s| == i by {
      ModOfSmaller(i, |s|);
    }
  }

  lemma ModOfSmaller(i: nat, n: nat)
    requires i < n
    ensures i % n == i
  {
  }

  /** An index at which x occurs in s. */
  ghost function IndexOf<T>(s: seq<T>, x: T): (i: nat)
    requires x in multiset(s)
    ensures i < |s| && s[i] == x
  {
    var i :| 0 <= i < |s| && s[i] == x; i
  }

  /** Taking the first element of t out of s leaves a permutation of the rest of t. */
  lemma RemainingMatch<T>(s: seq<T>, t: seq<T>, i: nat)
    requires multiset(s) == multiset(t) && 0 < |t| && i < |s| && s[i] == t[0]
    ensures multiset(Without(s, i)) == multiset(t[1..])
  {
    WithoutMultiset(s, i);
    assert t == [t[0]] + t[1..];
    assert multiset(t) == multiset{t[0]} + multiset(t[1..]);
    var a, b := multiset(Without(s, i)), multiset(t[1..]);
    assert forall x :: a[x] == b[x] by {
      forall x ensures a[x] == b[x] {
        assert multiset(s)[x] == a[x] + multiset{s[i]}[x];
        assert multiset(t)[x] == multiset{t[0]}[x] + b[x];
      }
    }
  }

  /** A record with its options read as a multiset: what a copy must keep. */
  datatype Content = Content(id: int, question: string, options: multiset<string>, answer: string)

  function ContentOf(q: Record): Content {
    Content(q.id, q.question, multiset(q.options), q.answer)
  }

  function Contents(qs: seq<Record>): (cs: seq<Content>)
    ensures |cs| == |qs|
    ensures forall k :: 0 <= k < |qs| ==> cs[k] == ContentOf(qs[k])
  {
    seq(|qs|, k requires 0 <= k < |qs| => ContentOf(qs[k]))
  }

  /** Reordering the records reorders their contents the same way. */
  lemma {:induction false} ContentsOfPick(qs: seq<Record>, picks: seq<nat>)
    ensures Contents(Pick(qs, picks)) == Pick(Contents(qs), picks)
    decreases |qs|
  {
    if |qs| > 0 {
      var i := NextIndex(picks, |qs|);
      var cs := Contents(qs);
      assert Contents(Without(qs, i)) == Without(cs, i);
      ContentsOfPick(Without(qs, i), LaterPicks(picks));
      assert Contents([qs[i]] + Pick(Without(qs, i), LaterPicks(picks)))
        == [ContentOf(qs[i])] + Contents(Pick(Without(qs, i), LaterPicks(picks)));
    }
  }

  /** The records with the options of the k-th one reordered by the k-th picks. */
  function ShuffleOptions(qs: seq<Record>, optionPicks: seq<seq<nat>>): (r: seq<Record>)
    ensures Contents(r) == Contents(qs)
  {
    var r := seq(|qs|, k requires 0 <= k < |qs| =>
      qs[k].(options := Pick(qs[k].options, if k < |optionPicks| then optionPicks[k] else [])));
    assert forall k :: 0 <= k < |qs| ==> ContentOf(r[k]) == ContentOf(qs[k]) by {
      forall k | 0 <= k < |qs| {
        PickPermutes(qs[k].options, if k < |optionPicks| then optionPicks[k] else []);
      }
    }
    r
  }

  /** Reordering the options keeps each answer among its record's options. */
  lemma AnswersStayAmongOptions(qs: seq<Record>, optionPicks: seq<seq<nat>>)
    requires forall k :: 0 <= k < |qs| ==> qs[k].answer in qs[k].options
    ensures forall k :: 0 <= k < |qs| ==>
      ShuffleOptions(qs, optionPicks)[k].answer in ShuffleOptions(qs, optionPicks)[k].options
  {
    var r := ShuffleOptions(qs, optionPicks);
    forall k | 0 <= k < |qs|
      ensures r[k].answer in r[k].options
    {
      assert ContentOf(r[k]) == ContentOf(qs[k]);
      assert r[k].answer in multiset(r[k].options);
    }
  }

  /**
   * A copy of qs in the order `order` picks, each record with its options in
   * the order its picks choose: the same records with the same options, and
   * every answer still among its record's options.
   */
  function ShuffledCopy(qs: seq<Record>, order: seq<nat>, optionPicks: seq<seq<nat>>): (r: seq<Record>)
    requires forall k :: 0 <= k < |qs| ==> qs[k].answer in qs[k].options
    ensures |r| == |qs|
    ensures multiset(Contents(r)) == multiset(Contents(qs))
    ensures forall k :: 0 <= k < |r| ==> r[k].answer in r[k].options
  {
    var sorted := Pick(qs, order);
    ContentsOfPick(qs, order);
    PickPermutes(Contents(qs), order);
    AnswersStayPicked(qs, order);
    AnswersStayAmongOptions(sorted, optionPicks);
    ShuffleOptions(sorted, optionPicks)
  }

  /** Reordering the records keeps each answer among its own record's options. */
  lemma AnswersStayPicked(qs: seq<Record>, order: seq<nat>)
    requires forall k :: 0 <= k < |qs| ==> qs[k].answer in qs[k].options
    ensures forall k :: 0 <= k < |qs| ==> Pick(qs, order)[k].answer in Pick(qs, order)[k].options
  {
    var p := Pick(qs, order);
    PickPermutes(qs, order);
    forall k | 0 <= k < |qs|
      ensures p[k].answer in p[k].options
    {
      assert p[k] in multiset(qs);
    }
  }

  /**
   * `getShuffledQuestions`: a copy of the table in some order, each record
   * with a copy of its options in some order. It holds exactly the records of
   * the table, each with its id, question and answer, and with the same
   * options; every answer is still among its record's options. The table
   * itself is a value and cannot change.
   */
  function GetShuffledQuestions(order: seq<nat>, optionPicks: seq<seq<nat>>): (r: seq<Record>)
    ensures |r| == |Questions()|
    ensures multiset(Contents(r)) == multiset(Contents(Questions()))
    ensures forall k :: 0 <= k < |r| ==> r[k].answer in r[k].options
  {
    ShuffledCopy(Questions(), order, optionPicks)
  }
}
