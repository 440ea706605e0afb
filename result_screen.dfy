/**
 * The result screen: the rounded percentage of correct answers and the
 * message band chosen from it.
 */
module ResultScreen {

  /**
   * `Math.round((score / total) * 100)` in exact arithmetic: 100 * score /
   * total rounded to the nearest integer, halves rounded up. The result p is
   * the one integer with p - 1/2 <= 100 * score / total < p + 1/2.
   */
  function Percentage(score: int, total: int): (p: int)
    requires total > 0
    ensures 2 * total * p - total <= 200 * score < 2 * total * p + total
    ensures 0 <= score <= total ==> 0 <= p <= 100
  {
    var p := (200 * score + total) / (2 * total);
    DivisionBounds(200 * score + total, 2 * total);
    assert 0 <= score <= total ==> 0 <= p <= 100 by {
      if 0 <= score <= total {
        PercentageRange(score, total, p);
      }
    }
    p
  }

  /** The quotient of Euclidean division by a positive divisor is the floor. */
  lemma DivisionBounds(a: int, b: int)
    requires b > 0
    ensures b * (a / b) <= a < b * (a / b) + b
  {
  }

  /** Multiplying by a positive factor keeps the order. */
  lemma MulLe(t: int, a: int, b: int)
    requires t > 0 && a <= b
    ensures t * a <= t * b
  {
  }

  /** A strict order of products by a positive factor is one of the factors. */
  lemma MulLtCancel(t: int, a: int, b: int)
    requires t > 0 && t * a < t * b
    ensures a < b
  {
    if b <= a {
      MulLe(t, b, a);
    }
  }

  lemma PercentageRange(score: int, total: int, p: int)
    requires 0 <= score <= total && total > 0
    requires 2 * total * p <= 200 * score + total < 2 * total * p + 2 * total
    ensures 0 <= p <= 100
  {
    MulLtCancel(2 * total, p, 101);
    MulLtCancel(2 * total, -1, p);
  }

  /** A higher score never gets a lower percentage. */
  lemma PercentageMonotone(s1: int, s2: int, total: int)
    requires total > 0 && s1 <= s2
    ensures Percentage(s1, total) <= Percentage(s2, total)
  {
    var p1, p2 := Percentage(s1, total), Percentage(s2, total);
    assert 2 * total * (p2 + 1) == 2 * total * p2 + 2 * total;
    MulLtCancel(2 * total, p1, p2 + 1);
  }

  /** A full score is 100 percent and a zero score is 0 percent. */
  lemma PercentageExtremes(total: int)
    requires total > 0
    ensures Percentage(total, total) == 100
    ensures Percentage(0, total) == 0
  {
    var p := Percentage(total, total);
    MulLtCancel(2 * total, p, 101);
    MulLtCancel(2 * total, 99, p);
    var q := Percentage(0, total);
    MulLtCancel(2 * total, q, 1);
    MulLtCancel(2 * total, -1, q);
  }

  /** The four messages, from best to worst. */
  datatype Band = Excellent | GoodJob | NotBad | KeepPracticing

  /** `getResultMessage`: the first threshold the percentage reaches. */
  function ResultBand(percentage: int): (b: Band)
    ensures b == Excellent <==> percentage >= 80
    ensures b == GoodJob <==> 60 <= percentage < 80
    ensures b == NotBad <==> 40 <= percentage < 60
    ensures b == KeepPracticing <==> percentage < 40
  {
    if percentage >= 80 then Excellent
    else if percentage >= 60 then GoodJob
    else if percentage >= 40 then NotBad
    else KeepPracticing
  }

  /** The position of a band in the order of the thresholds; 0 is the best. */
  function Rank(b: Band): nat {
    match b
    case Excellent => 0
    case GoodJob => 1
    case NotBad => 2
    case KeepPracticing => 3
  }

  /** A higher percentage never gets a lower band. */
  lemma BandMonotone(p: int, q: int)
    requires p <= q
    ensures Rank(ResultBand(q)) <= Rank(ResultBand(p))
  {
  }

  /** The text shown for each band. */
  function Message(b: Band): string {
    match b
    case Excellent => "Excellent! \U{1F389}"
    case GoodJob => "Good job! \U{1F44D}"
    case NotBad => "Not bad! \U{1F60A}"
    case KeepPracticing => "Keep practicing! \U{1F4AA}"
  }

  /** Different bands show different messages, so exactly one is chosen. */
  lemma MessagesDistinct(b1: Band, b2: Band)
    requires b1 != b2
    ensures Message(b1) != Message(b2)
  {
    assert Message(b1)[0] != Message(b2)[0] || |Message(b1)| != |Message(b2)|;
  }

  /** The message of the result screen for a final score. */
  function ResultMessage(score: int, total: int): (m: string)
    requires total > 0
    ensures m == "Excellent! \U{1F389}" <==> Percentage(score, total) >= 80
    ensures m == "Good job! \U{1F44D}" <==> 60 <= Percentage(score, total) < 80
    ensures m == "Not bad! \U{1F60A}" <==> 40 <= Percentage(score, total) < 60
    ensures m == "Keep practicing! \U{1F4AA}" <==> Percentage(score, total) < 40
  {
    var b := ResultBand(Percentage(score, total));
    forall b2 | b2 != b ensures Message(b2) != Message(b) {
      MessagesDistinct(b2, b);
    }
    assert Message(Excellent) == "Excellent! \U{1F389}";
    assert Message(GoodJob) == "Good job! \U{1F44D}";
    assert Message(NotBad) == "Not bad! \U{1F60A}";
    assert Message(KeepPracticing) == "Keep practicing! \U{1F4AA}";
    Message(ResultBand(Percentage(score, total)))
  }

  /** A full score is "Excellent" and a zero score is "Keep practicing". */
  lemma ResultMessageExtremes(total: int)
    requires total > 0
    ensures ResultMessage(total, total) == Message(Excellent)
    ensures ResultMessage(0, total) == Message(KeepPracticing)
  {
    PercentageExtremes(total);
  }
}
