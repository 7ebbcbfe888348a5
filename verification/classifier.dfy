/**
 * `classify_error_status`: the keyword classifier that turns an error
 * message into a GREEN / YELLOW / RED ORBT status.
 */
module Classifier {
  import opened Text
  import opened Tables

  /** Keywords whose presence makes an error RED. */
  const CRITICAL_KEYWORDS: seq<string> := [
    "doctrine_violation", "connection_failure", "authentication_error",
    "data_corruption", "system_unavailable", "critical", "fatal"
  ]

  /** Keywords whose presence makes an error at least YELLOW. */
  const WARNING_KEYWORDS: seq<string> := [
    "timeout", "rate_limit", "performance", "validation", "warning",
    "retry", "slow", "degraded"
  ]

  /** `any(keyword in s for keyword in keywords)`. */
  function AnyIn(keywords: seq<string>, s: string): (b: bool)
    ensures b <==> exists k :: k in keywords && Contains(s, k)
  {
    if keywords == [] then false
    else
      var rest := AnyIn(keywords[1..], s);
      assert rest ==> exists k :: k in keywords && Contains(s, k) by {
        if rest {
          var k :| k in keywords[1..] && Contains(s, k);
          assert k in keywords;
        }
      }
      assert (exists k :: k in keywords && Contains(s, k)) ==> Contains(s, keywords[0]) || rest by {
        if exists k :: k in keywords && Contains(s, k) {
          var k :| k in keywords && Contains(s, k);
          if k != keywords[0] {
            assert k in keywords[1..];
          }
        }
      }
      Contains(s, keywords[0]) || rest
  }

  /** Some keyword of the list occurs somewhere in `s`. */
  ghost predicate Mentions(s: string, keywords: seq<string>)
  {
    exists k, i :: k in keywords && OccursAt(s, k, i)
  }

  /** Orders the statuses by how alarming they are. */
  function Severity(s: OrbtStatus): (n: nat)
    ensures n <= 2
    ensures s == Green <==> n == 0
    ensures s == Red <==> n == 2
  {
    match s
    case Green => 0
    case Yellow => 1
    case Red => 2
  }

  lemma AnyInMeansMentions(keywords: seq<string>, s: string)
    ensures AnyIn(keywords, s) <==> Mentions(s, keywords)
  {
    if AnyIn(keywords, s) {
      var k :| k in keywords && Contains(s, k);
      var i :| OccursAt(s, k, i);
      assert Mentions(s, keywords);
    }
  }

  /**
   * The classifier; `errorType` is accepted and never consulted. RED
   * exactly when the lower-cased message mentions a critical keyword,
   * whatever warning keywords it also mentions; YELLOW when it mentions
   * no critical keyword and some warning keyword; GREEN otherwise.
   */
  function Classify(message: string, errorType: string): (status: OrbtStatus)
    ensures status == Red <==> Mentions(Lower(message), CRITICAL_KEYWORDS)
    ensures status == Yellow <==>
      !Mentions(Lower(message), CRITICAL_KEYWORDS) && Mentions(Lower(message), WARNING_KEYWORDS)
    ensures status == Green <==>
      !Mentions(Lower(message), CRITICAL_KEYWORDS) && !Mentions(Lower(message), WARNING_KEYWORDS)
  {
    var lowered := Lower(message);
    AnyInMeansMentions(CRITICAL_KEYWORDS, lowered);
    AnyInMeansMentions(WARNING_KEYWORDS, lowered);
    if AnyIn(CRITICAL_KEYWORDS, lowered) then Red
    else if AnyIn(WARNING_KEYWORDS, lowered) then Yellow
    else Green
  }

  /** Only the lower-cased message matters: the case of the input and the error type do not. */
  lemma ClassifyCaseInsensitive(message: string, t1: string, t2: string)
    ensures Classify(Lower(message), t1) == Classify(message, t2)
  {
    LowerIdempotent(message);
  }

  lemma LowerAppend(a: string, b: string)
    ensures Lower(a + b) == Lower(a) + Lower(b)
  {
    assert forall i :: 0 <= i < |a + b| ==> Lower(a + b)[i] == (Lower(a) + Lower(b))[i];
  }

  lemma MentionsExtend(s: string, x: string, keywords: seq<string>)
    requires Mentions(s, keywords)
    ensures Mentions(s + x, keywords) && Mentions(x + s, keywords)
  {
    var k, i :| k in keywords && OccursAt(s, k, i);
    assert (s + x)[i..i + |k|] == s[i..i + |k|];
    assert OccursAt(s + x, k, i);
    assert (x + s)[|x| + i..|x| + i + |k|] == s[i..i + |k|];
    assert OccursAt(x + s, k, |x| + i);
  }

  /**
   * Adding text around a message never makes it less alarming: every
   * keyword the message mentions is still mentioned.
   */
  lemma {:induction false} ClassifyGrowsWithText(before: string, message: string, after: string, errorType: string)
    ensures Severity(Classify(message, errorType)) <= Severity(Classify(before + message + after, errorType))
  {
    var whole := before + message + after;
    LowerAppend(before + message, after);
    LowerAppend(before, message);
    assert Lower(whole) == (Lower(before) + Lower(message)) + Lower(after);
    if Mentions(Lower(message), CRITICAL_KEYWORDS) {
      MentionsExtend(Lower(message), Lower(before), CRITICAL_KEYWORDS);
      MentionsExtend(Lower(before) + Lower(message), Lower(after), CRITICAL_KEYWORDS);
    }
    if Mentions(Lower(message), WARNING_KEYWORDS) {
      MentionsExtend(Lower(message), Lower(before), WARNING_KEYWORDS);
      MentionsExtend(Lower(before) + Lower(message), Lower(after), WARNING_KEYWORDS);
    }
  }
}
