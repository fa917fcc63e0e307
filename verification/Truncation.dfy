/** The offline token estimate, the binary search that cuts a payload at a token cap, and
    the provider stub built on it. */
module Truncation {
  import opened JsonText

  function CjkCount(text: string): (n: nat)
    ensures n <= |text|
  {
    if text == "" then 0 else (if IsCjk(text[0]) then 1 else 0) + CjkCount(text[1..])
  }

  function EstimateTokens(text: string): nat {
    CjkCount(text) + (|text| - CjkCount(text) + 3) / 4
  }

  lemma {:induction false} TokenWeight(text: string)
    ensures Cost(Tokens, text) == 4 * CjkCount(text) + (|text| - CjkCount(text))
  {
    if text == "" {
    } else {
      TokenWeight(text[1..]);
    }
  }

  /** The estimate is a rounding of an additive weight. */
  lemma EstimateIsRoundedWeight(text: string)
    ensures EstimateTokens(text) == (Cost(Tokens, text) + 3) / 4
  {
    TokenWeight(text);
  }

  lemma EstimateMonotone(text: string, i: nat, j: nat)
    requires i <= j <= |text|
    ensures EstimateTokens(text[..i]) <= EstimateTokens(text[..j])
  {
    assert text[..j] == text[..i] + text[i..j];
    CostConcat(Tokens, text[..i], text[i..j]);
    EstimateIsRoundedWeight(text[..i]);
    EstimateIsRoundedWeight(text[..j]);
  }

  /** Discrete continuity: one more character never skips a token count. */
  lemma EstimateSteps(text: string, i: nat)
    requires i < |text|
    ensures EstimateTokens(text[..i]) <= EstimateTokens(text[..i + 1]) <= EstimateTokens(text[..i]) + 1
  {
    assert text[..i + 1] == text[..i] + [text[i]];
    CostConcat(Tokens, text[..i], [text[i]]);
    assert Cost(Tokens, [text[i]][1..]) == 0;
    EstimateIsRoundedWeight(text[..i]);
    EstimateIsRoundedWeight(text[..i + 1]);
  }

  /** `n` is the length of the longest prefix of `text` whose estimate fits `cap`. */
  ghost predicate LongestFit(text: string, cap: int, n: nat) {
    && n <= |text|
    && EstimateTokens(text[..n]) <= cap
    && forall m: nat :: n < m <= |text| ==> EstimateTokens(text[..m]) > cap
  }

  /** A cut that dropped something spends the cap to the last token. */
  lemma CutSpendsTheCap(text: string, cap: int, n: nat)
    requires LongestFit(text, cap, n) && n < |text|
    ensures EstimateTokens(text[..n]) == cap
  {
    EstimateSteps(text, n);
    assert EstimateTokens(text[..n + 1]) > cap;
  }

  lemma FitsWhole(text: string, cap: int, n: nat)
    requires LongestFit(text, cap, n)
    ensures n == |text| <==> EstimateTokens(text) <= cap
  {
    assert text[..|text|] == text;
  }

  method TruncateToTokens(text: string, maxTokens: int) returns (cut: string)
    ensures cut <= text
    ensures maxTokens >= 0 ==> LongestFit(text, maxTokens, |cut|)
    ensures maxTokens < 0 ==> cut == ""
  {
    assert text[..|text|] == text;
    if EstimateTokens(text) <= maxTokens {
      return text;
    }
    var low, high := 0, |text|;
    while low < high
      invariant 0 <= low <= high <= |text|
      invariant maxTokens >= 0 ==> EstimateTokens(text[..low]) <= maxTokens
      invariant maxTokens < 0 ==> low == 0
      invariant forall m: nat :: high < m <= |text| ==> EstimateTokens(text[..m]) > maxTokens
    {
      var mid := (low + high + 1) / 2;
      if EstimateTokens(text[..mid]) <= maxTokens {
        low := mid;
      } else {
        forall m: nat | mid <= m <= |text|
          ensures EstimateTokens(text[..m]) > maxTokens
        {
          EstimateMonotone(text, mid, m);
        }
        high := mid - 1;
      }
    }
    return text[..low];
  }

  datatype FinishReason = Stop | LengthReached

  /** One answer of the provider stub; 0 stands for a request that names no cap. */
  method ProviderAnswer(payload: string, maxTokens: int)
    returns (content: string, finish: FinishReason, completionTokens: nat)
    ensures content <= payload
    ensures completionTokens == EstimateTokens(content)
    // the reply is reported as cut exactly when the payload overruns a positive cap
    ensures finish == LengthReached <==> 0 < maxTokens < EstimateTokens(payload)
    ensures finish == LengthReached ==> completionTokens == maxTokens && |content| < |payload|
    ensures finish == Stop && maxTokens >= 0 ==> content == payload
    ensures maxTokens > 0 ==> LongestFit(payload, maxTokens, |content|)
  {
    if maxTokens != 0 {
      content := TruncateToTokens(payload, maxTokens);
    } else {
      content := payload;
    }
    completionTokens := EstimateTokens(content);
    finish := if completionTokens >= maxTokens > 0 && content != payload then LengthReached else Stop;
    if maxTokens > 0 {
      assert payload[..|content|] == content;
      FitsWhole(payload, maxTokens, |content|);
      if |content| < |payload| {
        CutSpendsTheCap(payload, maxTokens, |content|);
      }
    }
  }
}
