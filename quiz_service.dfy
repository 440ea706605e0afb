/**
 * The question service: the HTML character-reference decoder applied to the
 * trivia service's text, the Fisher-Yates shuffle of the answer options, and
 * the mapping of a raw response into the app's question records.
 */
module QuizService {
  import opened Wrappers

  // ---------------------------------------------------------------------
  // Decoding of HTML character references
  // ---------------------------------------------------------------------

  /** The eleven character references the decoder knows, with their text. */
  const Entities: map<string, string> := map[
    "&amp;" := "&",
    "&lt;" := "<",
    "&gt;" := ">",
    "&quot;" := "\"",
    "&#039;" := "'",
    "&ldquo;" := "\"",
    "&rdquo;" := "\"",
    "&lsquo;" := "'",
    "&rsquo;" := "'",
    "&hellip;" := "...",
    "&nbsp;" := " "
  ]

  /**
   * A string the pattern /&[^;]+;/ matches as a whole: an ampersand, at
   * least one character other than ';', and a closing ';'.
   */
  predicate IsReference(m: string) {
    && |m| >= 3
    && m[0] == '&'
    && m[|m| - 1] == ';'
    && forall i :: 1 <= i < |m| - 1 ==> m[i] != ';'
  }

  /** Every key of the table is a reference, and its text is shorter. */
  lemma EntityKeysAreReferences()
    ensures forall k :: k in Entities ==> IsReference(k) && |Entities[k]| < |k|
  {
  }

  /** The position of the first ';' at or after k, or |s| when there is none. */
  function NextSemicolon(s: string, k: nat): (e: nat)
    requires k <= |s|
    ensures k <= e <= |s|
    ensures e < |s| ==> s[e] == ';'
    ensures forall i :: k <= i < e ==> s[i] != ';'
    decreases |s| - k
  {
    if k == |s| || s[k] == ';' then k else NextSemicolon(s, k + 1)
  }

  /**
   * The length of the match of /&[^;]+;/ that starts at the front of s, or 0
   * when the pattern does not match there. The match, when there is one, is
   * the only prefix of s that is a reference.
   */
  function MatchLength(s: string): (n: nat)
    ensures n <= |s|
    ensures n != 0 ==> IsReference(s[..n])
    ensures forall m :: 0 < m <= |s| && IsReference(s[..m]) ==> m == n
  {
    if |s| == 0 || s[0] != '&' then 0
    else
      var e := NextSemicolon(s, 1);
      if e < |s| && e >= 2 then e + 1 else 0
  }

  /** What the replacer callback returns for one match. */
  function Replacement(m: string): (r: string)
    ensures m in Entities ==> r == Entities[m]
    ensures m !in Entities ==> r == m
  {
    if m in Entities then Entities[m] else m
  }

  /**
   * `text.replace(/&[^;]+;/g, ...)`: one left-to-right pass over the text;
   * each match is replaced by its table entry when it has one and kept
   * verbatim otherwise, and the output is never scanned again. An empty
   * (falsy) text is returned as it is.
   */
  function DecodeHtmlEntities(text: string): (r: string)
    ensures |r| <= |text|
    decreases |text|
  {
    if |text| == 0 then text
    else
      var n := MatchLength(text);
      if n == 0 then [text[0]] + DecodeHtmlEntities(text[1..])
      else
        EntityKeysAreReferences();
        Replacement(text[..n]) + DecodeHtmlEntities(text[n..])
  }

  /** Text without an ampersand passes through, and scanning resumes after it. */
  lemma {:induction false} DecodePlainPrefix(t: string, rest: string)
    requires '&' !in t
    ensures DecodeHtmlEntities(t + rest) == t + DecodeHtmlEntities(rest)
    decreases |t|
  {
    if |t| > 0 {
      var s := t + rest;
      assert s[0] == t[0];
      assert MatchLength(s) == 0;
      assert s[1..] == t[1..] + rest;
      DecodePlainPrefix(t[1..], rest);
      assert [t[0]] + t[1..] == t;
    } else {
      assert t + rest == rest;
    }
  }

  /** A text without an ampersand is returned unchanged; so is the empty text. */
  lemma NoAmpersandUnchanged(text: string)
    requires '&' !in text
    ensures DecodeHtmlEntities(text) == text
  {
    DecodePlainPrefix(text, "");
    assert text + "" == text;
  }

  /** A reference at the front of the text is decoded on its own. */
  lemma DecodeReferencePrefix(m: string, rest: string)
    requires IsReference(m)
    ensures DecodeHtmlEntities(m + rest) == Replacement(m) + DecodeHtmlEntities(rest)
  {
    var s := m + rest;
    assert s[..|m|] == m;
    var n := MatchLength(s);
    assert n == |m|;
    assert s[n..] == rest;
  }

  /** A known reference at the front becomes its table text. */
  lemma DecodeKnownEntity(k: string, rest: string)
    requires k in Entities
    ensures DecodeHtmlEntities(k + rest) == Entities[k] + DecodeHtmlEntities(rest)
  {
    EntityKeysAreReferences();
    DecodeReferencePrefix(k, rest);
  }

  /** An unknown reference at the front is kept verbatim. */
  lemma DecodeUnknownReference(m: string, rest: string)
    requires IsReference(m) && m !in Entities
    ensures DecodeHtmlEntities(m + rest) == m + DecodeHtmlEntities(rest)
  {
    DecodeReferencePrefix(m, rest);
  }

  /**
   * An ampersand at which no match begins (no ';' after it, or none with a
   * character in between) is copied, and scanning resumes right after it.
   */
  lemma DecodeUnmatchedAmpersand(rest: string)
    requires forall m :: 0 < m <= |"&" + rest| ==> !IsReference(("&" + rest)[..m])
    ensures DecodeHtmlEntities("&" + rest) == "&" + DecodeHtmlEntities(rest)
  {
    var s := "&" + rest;
    assert MatchLength(s) == 0;
    assert s[1..] == rest;
    assert [s[0]] == "&";
  }

  /** `"Q&A"` has an ampersand that starts no match, and is returned unchanged. */
  lemma DecodeLoneAmpersand()
    ensures DecodeHtmlEntities("Q&A") == "Q&A"
  {
    assert "Q&A" == "Q" + ("&" + "A");
    DecodePlainPrefix("Q", "&" + "A");
    DecodeUnmatchedAmpersand("A");
    NoAmpersandUnchanged("A");
  }

  /**
   * Decoding is a single pass: the '&' produced by "&amp;" does not start a
   * new reference, so "&amp;lt;" becomes "&lt;"; decoding that again would
   * give "<", so decoding is not idempotent.
   */
  lemma DecodeIsNotRescanned()
    ensures DecodeHtmlEntities("&amp;lt;") == "&lt;"
    ensures DecodeHtmlEntities(DecodeHtmlEntities("&amp;lt;")) == "<"
  {
    DecodeAmpersandFirst();
    DecodeLessThan();
  }

  lemma DecodeAmpersandFirst()
    ensures DecodeHtmlEntities("&amp;lt;") == "&lt;"
  {
    KnownThenPlain("&amp;", "lt;");
    assert "&amp;" + "lt;" == "&amp;lt;";
  }

  /** A known reference followed by text without an ampersand. */
  lemma KnownThenPlain(k: string, rest: string)
    requires k in Entities && '&' !in rest
    ensures DecodeHtmlEntities(k + rest) == Entities[k] + rest
  {
    DecodeKnownEntity(k, rest);
    NoAmpersandUnchanged(rest);
  }

  lemma DecodeLessThan()
    ensures DecodeHtmlEntities("&lt;") == "<"
  {
    assert "&lt;" == "&lt;" + "";
    DecodeKnownEntity("&lt;", "");
  }

  /**
   * The match runs to the FIRST ';', so an ampersand inside it hides a known
   * reference: "&amp&lt;" is one unknown match and is kept as it is.
   */
  lemma DecodeMatchRunsToFirstSemicolon()
    ensures DecodeHtmlEntities("&amp&lt;") == "&amp&lt;"
  {
    var m := "&amp&lt;";
    assert IsReference(m);
    assert m + "" == m;
    DecodeUnknownReference(m, "");
  }

  /** `&nbsp;` becomes a plain space, as in every other table entry. */
  lemma DecodeNbspIsSpace()
    ensures DecodeHtmlEntities("a&nbsp;b") == "a b"
  {
    assert "a&nbsp;b" == "a" + ("&nbsp;" + "b");
    DecodePlainPrefix("a", "&nbsp;" + "b");
    DecodeKnownEntity("&nbsp;", "b");
    NoAmpersandUnchanged("b");
  }

  // ---------------------------------------------------------------------
  // Fisher-Yates shuffle
  // ---------------------------------------------------------------------

  /** Draws of `Math.random()`: each one in [0, 1). */
  predicate IsDraws(draws: seq<real>) {
    forall k :: 0 <= k < |draws| ==> 0.0 <= draws[k] < 1.0
  }

  /** `Math.floor(r * (i + 1))` for a draw r: an index in [0, i]. */
  function SwapIndex(r: real, i: nat): (j: nat)
    requires 0.0 <= r < 1.0
    ensures j <= i
  {
    var x := r * (i + 1) as real;
    ScaledDrawBounds(r, (i + 1) as real);
    x.Floor
  }

  /** A draw in [0, 1) scaled by a positive n lies in [0, n). */
  lemma ScaledDrawBounds(r: real, n: real)
    requires 0.0 <= r < 1.0 && n > 0.0
    ensures 0.0 <= r * n < n
  {
    assert (1.0 - r) * n > 0.0;
    assert n - r * n == (1.0 - r) * n;
  }

  /** The destructuring swap `[a[i], a[j]] = [a[j], a[i]]`. */
  function Swap<T>(s: seq<T>, i: nat, j: nat): (t: seq<T>)
    requires i < |s| && j < |s|
    ensures |t| == |s|
  {
    s[i := s[j]][j := s[i]]
  }

  /**
   * The copy after the first k iterations of the loop. The loop index starts
   * at |s| - 1 and goes down, so iteration number k - 1 swaps position
   * |s| - k with a position at or below it, using draw number k - 1.
   */
  function Shuffled<T>(s: seq<T>, k: nat, draws: seq<real>): (t: seq<T>)
    requires k == 0 || k < |s|
    requires IsDraws(draws) && |s| <= |draws| + 1
    ensures |t| == |s|
  {
    if k == 0 then s
    else
      var i := |s| - k;
      Swap(Shuffled(s, k - 1, draws), i, SwapIndex(draws[k - 1], i))
  }

  /** A swap rearranges the elements and keeps all of them. */
  lemma SwapPermutes<T>(s: seq<T>, i: nat, j: nat)
    requires i < |s| && j < |s|
    ensures multiset(Swap(s, i, j)) == multiset(s)
  {
  }

  /** Every prefix of the loop keeps the elements of the copy. */
  lemma {:induction false} ShuffledPermutes<T>(s: seq<T>, k: nat, draws: seq<real>)
    requires k == 0 || k < |s|
    requires IsDraws(draws) && |s| <= |draws| + 1
    ensures multiset(Shuffled(s, k, draws)) == multiset(s)
  {
    if k > 0 {
      var prev := Shuffled(s, k - 1, draws);
      var i := |s| - k;
      var j := SwapIndex(draws[k - 1], i);
      assert Shuffled(s, k, draws) == Swap(prev, i, j);
      ShuffledPermutes(s, k - 1, draws);
      SwapPermutes(prev, i, j);
    }
  }

  /** The result of shuffling s with the given draws: |s| - 1 iterations. */
  function Shuffle<T>(s: seq<T>, draws: seq<real>): (t: seq<T>)
    requires IsDraws(draws) && |s| <= |draws| + 1
    ensures |t| == |s| && multiset(t) == multiset(s)
  {
    ShuffledPermutes(s, if |s| == 0 then 0 else |s| - 1, draws);
    Shuffled(s, if |s| == 0 then 0 else |s| - 1, draws)
  }

  /** The destructuring swap on the array. */
  method SwapElements<T>(b: array<T>, i: nat, j: nat)
    requires i < b.Length && j < b.Length
    modifies b
    ensures b[..] == Swap(old(b[..]), i, j)
  {
    ghost var before := b[..];
    b[i], b[j] := b[j], b[i];
    assert b[..] == before[i := before[j]][j := before[i]];
  }

  /**
   * The loop of `shuffleArray` on the copy: the index i runs from the last
   * position down to 1, and each position i is swapped with a drawn one in
   * [0, i].
   */
  method ShuffleInPlace<T>(b: array<T>, draws: seq<real>)
    requires IsDraws(draws) && b.Length <= |draws| + 1
    modifies b
    ensures b[..] == Shuffle(old(b[..]), draws)
  {
    var i := b.Length - 1;
    while i > 0
      invariant -1 <= i < b.Length && (i == -1 ==> b.Length == 0)
      invariant b[..] == Shuffled(old(b[..]), b.Length - 1 - i, draws)
      decreases i
    {
      var j := SwapIndex(draws[b.Length - 1 - i], i);
      SwapElements(b, i, j);
      i := i - 1;
    }
  }

  /**
   * `shuffleArray`: shuffles a copy of the array and returns it, a
   * permutation of the input; the input array is not modified.
   */
  method ShuffleArray<T>(a: array<T>, draws: seq<real>) returns (r: seq<T>)
    requires IsDraws(draws) && a.Length <= |draws| + 1
    ensures r == Shuffle(a[..], draws)
    ensures |r| == a.Length && multiset(r) == multiset(a[..])
  {
    var b := new T[a.Length](k reads a requires 0 <= k < a.Length => a[k]);
    assert b[..] == a[..];
    ShuffleInPlace(b, draws);
    r := b[..];
    ShuffledPermutes(a[..], if a.Length == 0 then 0 else a.Length - 1, draws);
  }

  // ---------------------------------------------------------------------
  // Formatting of the service's response
  // ---------------------------------------------------------------------

  /** One record of the service's `results` (the fields the app reads). */
  datatype RawQuestion = RawQuestion(question: string, correctAnswer: string, incorrectAnswers: seq<string>)

  /** The parsed response body. */
  datatype ApiResponse = ApiResponse(responseCode: int, results: seq<RawQuestion>)

  /** A question as the quiz screen uses it. */
  datatype Question = Question(question: string, options: seq<string>, answer: string)

  /** The error `fetchQuizQuestions` raises for a non-zero response code. */
  const LoadError := "Could not load questions"

  /** Each string decoded. */
  function DecodeAll(xs: seq<string>): (ys: seq<string>)
    ensures |ys| == |xs|
    ensures forall k :: 0 <= k < |xs| ==> ys[k] == DecodeHtmlEntities(xs[k])
  {
    seq(|xs|, k requires 0 <= k < |xs| => DecodeHtmlEntities(xs[k]))
  }

  /** Draws enough for shuffling the options of `raw`. */
  predicate DrawsFor(raw: RawQuestion, draws: seq<real>) {
    IsDraws(draws) && |raw.incorrectAnswers| <= |draws|
  }

  /**
   * The mapping applied to one raw record: decoded text, the decoded
   * incorrect answers followed by the decoded correct one, shuffled, and the
   * decoded correct answer.
   */
  function FormatQuestion(raw: RawQuestion, draws: seq<real>): (q: Question)
    requires DrawsFor(raw, draws)
    ensures q.answer == DecodeHtmlEntities(raw.correctAnswer)
    ensures q.answer in q.options
    ensures |q.options| == |raw.incorrectAnswers| + 1
    ensures multiset(q.options) == multiset(DecodeAll(raw.incorrectAnswers)) + multiset{q.answer}
  {
    var answer := DecodeHtmlEntities(raw.correctAnswer);
    var options := DecodeAll(raw.incorrectAnswers) + [answer];
    assert answer in multiset(options);
    ShuffledPermutes(options, |options| - 1, draws);
    Question(DecodeHtmlEntities(raw.question), Shuffle(options, draws), answer)
  }

  /** Draws enough for every record of the response. */
  predicate DrawsForAll(results: seq<RawQuestion>, draws: seq<seq<real>>) {
    |results| <= |draws| && forall k :: 0 <= k < |results| ==> DrawsFor(results[k], draws[k])
  }

  /**
   * `fetchQuizQuestions` after the response has been parsed: a zero response
   * code gives one formatted question per result, in order; any other code
   * raises the load error and gives no questions.
   */
  function FetchQuizQuestions(data: ApiResponse, draws: seq<seq<real>>): (r: Result<seq<Question>, string>)
    requires data.responseCode == 0 ==> DrawsForAll(data.results, draws)
    ensures r.Failure? <==> data.responseCode != 0
    ensures r.Failure? ==> r.error == LoadError
    ensures r.Success? ==> |r.value| == |data.results|
    ensures r.Success? ==> forall k :: 0 <= k < |r.value| ==>
      && r.value[k].question == DecodeHtmlEntities(data.results[k].question)
      && r.value[k].answer == DecodeHtmlEntities(data.results[k].correctAnswer)
      && r.value[k].answer in r.value[k].options
      && |r.value[k].options| == |data.results[k].incorrectAnswers| + 1
  {
    if data.responseCode == 0 then
      Success(seq(|data.results|, k requires 0 <= k < |data.results| => FormatQuestion(data.results[k], draws[k])))
    else
      Failure(LoadError)
  }
}
