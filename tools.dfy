/**
 * The two deterministic refund tools: the eligibility policy and the refund
 * processor, which only formats a confirmation.
 */
module Tools {
  import opened Text
  import opened Decimal

  /** Shipping methods and refund reasons the policy accepts (lists, tested with `in`). */
  const EligibleShippingMethods: seq<string> := ["INSURED"]
  const EligibleReasons: seq<string> := ["DAMAGED", "NEVER_ARRIVED", "LOST"]

  /** How both arguments are prepared before the membership test: strip, then upper-case. */
  function Normalize(s: string): (r: string)
    ensures |r| <= |s|
  {
    Upper(Strip(s))
  }

  /** `check_refund_eligibility(reason, shipping_method)`. */
  predicate CheckRefundEligibility(reason: string, shippingMethod: string) {
    Normalize(shippingMethod) in EligibleShippingMethods && Normalize(reason) in EligibleReasons
  }

  /**
   * `x` spells the word `w` in any letter case, with nothing but whitespace
   * before and after it.
   */
  predicate SpellsPadded(x: string, w: string) {
    exists i, j :: 0 <= i <= j <= |x| && AllSpaceIn(x, 0, i) && AllSpaceIn(x, j, |x|) && EqualIgnoringCase(x[i..j], w)
  }

  /** A policy word: upper-case, non-empty, and without whitespace at its ends. */
  predicate IsPolicyWord(w: string) {
    Upper(w) == w && w != [] && !IsSpace(w[0]) && !IsSpace(w[|w| - 1])
  }

  /** A string that normalises to a policy word spells it. */
  lemma NormalizedSpells(x: string, w: string)
    requires IsPolicyWord(w)
    requires Normalize(x) == w
    ensures SpellsPadded(x, w)
  {
    var m := Strip(x);
    var p, q := StripSplit(x);
    var i, j := |p|, |p| + |m|;
    assert x[i..j] == m;
    UpperEqual(m, w);
    assert AllSpaceIn(x, 0, i) by {
      forall k | 0 <= k < i ensures IsSpace(x[k]) { assert x[k] == p[k]; }
    }
    assert AllSpaceIn(x, j, |x|) by {
      forall k | j <= k < |x| ensures IsSpace(x[k]) { assert x[k] == q[k - j]; }
    }
  }

  /** A string that spells a policy word normalises to it. */
  lemma SpelledNormalizes(x: string, w: string, i: int, j: int)
    requires IsPolicyWord(w)
    requires 0 <= i <= j <= |x| && AllSpaceIn(x, 0, i) && AllSpaceIn(x, j, |x|) && EqualIgnoringCase(x[i..j], w)
    ensures Normalize(x) == w
  {
    var m := x[i..j];
    assert x == x[..i] + m + x[j..];
    assert Upper(w)[0] == UpperChar(w[0]) && Upper(w)[|w| - 1] == UpperChar(w[|w| - 1]);
    CaseKeepsSpace(m[0]);
    CaseKeepsSpace(m[|m| - 1]);
    CaseKeepsSpace(w[0]);
    CaseKeepsSpace(w[|w| - 1]);
    assert AllSpace(x[..i]);
    assert AllSpace(x[j..]);
    StripUnique(x[..i], m, x[j..]);
    UpperEqual(m, w);
  }

  /** Normalising to a policy word is exactly spelling it up to case and outer whitespace. */
  lemma NormalizeSpells(x: string, w: string)
    requires IsPolicyWord(w)
    ensures Normalize(x) == w <==> SpellsPadded(x, w)
  {
    if Normalize(x) == w {
      NormalizedSpells(x, w);
    }
    if SpellsPadded(x, w) {
      var i, j :| 0 <= i <= j <= |x| && AllSpaceIn(x, 0, i) && AllSpaceIn(x, j, |x|) && EqualIgnoringCase(x[i..j], w);
      SpelledNormalizes(x, w, i, j);
    }
  }

  lemma PolicyWords()
    ensures IsPolicyWord("INSURED") && IsPolicyWord("DAMAGED") && IsPolicyWord("NEVER_ARRIVED") && IsPolicyWord("LOST")
  {
    assert Upper("INSURED") == "INSURED";
    assert Upper("DAMAGED") == "DAMAGED";
    assert Upper("NEVER_ARRIVED") == "NEVER_ARRIVED";
    assert Upper("LOST") == "LOST";
  }

  /**
   * The policy in words: a refund is eligible exactly when the shipping
   * method spells INSURED and the reason spells DAMAGED, NEVER_ARRIVED or
   * LOST, each in any letter case and with any surrounding whitespace.
   */
  lemma EligibilityPolicy(reason: string, shippingMethod: string)
    ensures CheckRefundEligibility(reason, shippingMethod) <==>
      SpellsPadded(shippingMethod, "INSURED") &&
      (SpellsPadded(reason, "DAMAGED") || SpellsPadded(reason, "NEVER_ARRIVED") || SpellsPadded(reason, "LOST"))
  {
    PolicyWords();
    NormalizeSpells(shippingMethod, "INSURED");
    NormalizeSpells(reason, "DAMAGED");
    NormalizeSpells(reason, "NEVER_ARRIVED");
    NormalizeSpells(reason, "LOST");
  }

  /** A shipping method that does not spell INSURED rules out every reason. */
  lemma UninsuredNeverEligible(reason: string, shippingMethod: string)
    requires !SpellsPadded(shippingMethod, "INSURED")
    ensures !CheckRefundEligibility(reason, shippingMethod)
  {
    PolicyWords();
    NormalizeSpells(shippingMethod, "INSURED");
  }

  lemma NormalizeIdempotent(s: string)
    ensures Normalize(Normalize(s)) == Normalize(s)
  {
    StripUpperCommute(Strip(s));
    StripIdempotent(s);
    UpperIdempotent(Strip(s));
  }

  /** Normalising the arguments first leaves the decision unchanged. */
  lemma EligibilityIgnoresNormalization(reason: string, shippingMethod: string)
    ensures CheckRefundEligibility(Normalize(reason), Normalize(shippingMethod)) == CheckRefundEligibility(reason, shippingMethod)
  {
    NormalizeIdempotent(reason);
    NormalizeIdempotent(shippingMethod);
  }

  /** Whitespace added around either argument, each padded on its own, leaves the decision unchanged. */
  lemma EligibilityIgnoresPadding(reason: string, shippingMethod: string, p1: string, q1: string, p2: string, q2: string)
    requires AllSpace(p1) && AllSpace(q1) && AllSpace(p2) && AllSpace(q2)
    ensures CheckRefundEligibility(p1 + reason + q1, p2 + shippingMethod + q2) == CheckRefundEligibility(reason, shippingMethod)
  {
    StripIgnoresPadding(p1, reason, q1);
    StripIgnoresPadding(p2, shippingMethod, q2);
  }

  lemma NormalizeIgnoresCase(a: string, b: string)
    requires EqualIgnoringCase(a, b)
    ensures Normalize(a) == Normalize(b)
  {
    UpperEqual(a, b);
    StripUpperCommute(a);
    StripUpperCommute(b);
  }

  /** Changing the letter case of either argument leaves the decision unchanged. */
  lemma EligibilityIgnoresCase(reason: string, shippingMethod: string, reason': string, shippingMethod': string)
    requires EqualIgnoringCase(reason, reason') && EqualIgnoringCase(shippingMethod, shippingMethod')
    ensures CheckRefundEligibility(reason, shippingMethod) == CheckRefundEligibility(reason', shippingMethod')
  {
    NormalizeIgnoresCase(reason, reason');
    NormalizeIgnoresCase(shippingMethod, shippingMethod');
  }

  /** Normalising a word wrapped in whitespace upper-cases the word. */
  lemma NormalizeWrapped(p: string, m: string, q: string)
    requires AllSpace(p) && AllSpace(q)
    requires m != [] && !IsSpace(m[0]) && !IsSpace(m[|m| - 1])
    ensures Normalize(p + m + q) == Upper(m)
  {
    StripUnique(p, m, q);
  }

  lemma NormalizeWord(m: string)
    requires m != [] && !IsSpace(m[0]) && !IsSpace(m[|m| - 1])
    ensures Normalize(m) == Upper(m)
  {
    assert [] + m + [] == m;
    NormalizeWrapped([], m, []);
  }

  /** Only the outer ends are trimmed: lower case is forgiven ... */
  lemma LowerCaseForgiven()
    ensures CheckRefundEligibility("never_arrived", "insured")
  {
    NormalizeWord("never_arrived");
    assert Upper("never_arrived") == "NEVER_ARRIVED" == EligibleReasons[1];
    NormalizeInsured();
    assert EligibleShippingMethods[0] == "INSURED";
  }

  /** ... but an inner space is not. */
  lemma InnerSpaceNotForgiven()
    ensures !CheckRefundEligibility("NEVER ARRIVED", "INSURED")
  {
    NormalizeWord("NEVER ARRIVED");
    assert Upper("NEVER ARRIVED") == "NEVER ARRIVED";
    assert "NEVER ARRIVED"[5] != EligibleReasons[1][5];
  }

  lemma NormalizePaddedDamaged()
    ensures Normalize(" damaged ") == "DAMAGED"
  {
    assert " damaged " == " " + "damaged" + " ";
    NormalizeWrapped(" ", "damaged", " ");
    assert Upper("damaged") == "DAMAGED";
  }

  lemma NormalizeInsured()
    ensures Normalize("insured") == "INSURED"
  {
    NormalizeWord("insured");
    assert Upper("insured") == "INSURED";
  }

  /** Surrounding whitespace is forgiven. */
  lemma PaddedReasonEligible()
    ensures CheckRefundEligibility(" damaged ", "insured")
  {
    NormalizePaddedDamaged();
    NormalizeInsured();
    assert EligibleReasons[0] == "DAMAGED" && EligibleShippingMethods[0] == "INSURED";
  }

  lemma StandardShippingNotEligible()
    ensures !CheckRefundEligibility("LOST", "STANDARD")
  {
    NormalizeWord("STANDARD");
    assert Upper("STANDARD") == "STANDARD";
  }

  lemma MixedCaseEligible()
    ensures CheckRefundEligibility("lost", "Insured")
  {
    NormalizeWord("lost");
    assert Upper("lost") == "LOST" == EligibleReasons[2];
    NormalizeWord("Insured");
    assert Upper("Insured") == "INSURED" == EligibleShippingMethods[0];
  }

  const RefundSuccessPrefix: string := "\U{2705} Refund "
  const RefundCreditText: string := " successful! We will credit $"
  const RefundClosingText: string := " to your account within 2 business days."

  /**
   * The synthetic refund identifier `REF-<order id>-<cents>`. The source
   * computes cents as `int(amount*100)`; here the amount already is whole cents.
   */
  function RefundId(orderId: string, amountCents: int): string
  {
    "REF-" + orderId + "-" + IntToString(amountCents)
  }

  /**
   * `process_refund(amount, order_id)`: validates nothing and always reports
   * success, naming the refund id and the credited amount.
   */
  function ProcessRefund(amountCents: int, orderId: string): (message: string)
  {
    RefundSuccessPrefix + RefundId(orderId, amountCents) + RefundCreditText + CentsToString(amountCents) + RefundClosingText
  }

  /** For one order, distinct amounts give distinct refund ids. */
  lemma RefundIdInjective(orderId: string, a: int, b: int)
    requires RefundId(orderId, a) == RefundId(orderId, b)
    ensures a == b
  {
    var n := 5 + |orderId|;
    assert RefundId(orderId, a)[n..] == IntToString(a);
    assert RefundId(orderId, b)[n..] == IntToString(b);
    IntToStringInjective(a, b);
  }

  /** Past the dash before the amount, a non-negative amount's id holds no further dash. */
  lemma AmountFollowsLastDash(orderId: string, digits: string)
    requires Decimal.AllDigits(digits)
    ensures var id := "REF-" + orderId + "-" + digits;
      && id[|id| - |digits| - 1] == '-'
      && forall k :: |id| - |digits| <= k < |id| ==> id[k] != '-'
  {
    var id := "REF-" + orderId + "-" + digits;
    assert forall k :: |id| - |digits| <= k < |id| ==> id[k] == digits[k - (|id| - |digits|)];
  }

  /** For non-negative amounts the id determines both the order and the amount. */
  lemma RefundIdDeterminesOrder(o1: string, a: int, o2: string, b: int)
    requires a >= 0 && b >= 0
    requires RefundId(o1, a) == RefundId(o2, b)
    ensures o1 == o2 && a == b
  {
    var id := RefundId(o1, a);
    var d1, d2 := IntToString(a), IntToString(b);
    AmountFollowsLastDash(o1, d1);
    AmountFollowsLastDash(o2, d2);
    assert |d1| == |d2|;
    assert d1 == id[|id| - |d1|..] == d2;
    IntToStringInjective(a, b);
    assert o1 == id[4..|id| - |d1| - 1] == o2;
  }

  /** With a negative amount the id no longer determines the order. */
  lemma RefundIdNegativeCollision()
    ensures RefundId("A-", 12) == RefundId("A", -12)
  {
  }

  lemma SliceOfJoin(a: string, c: string, b: string)
    ensures (a + c + b)[..|a|] == a
    ensures (a + c + b)[|a|..|a| + |c|] == c
  {
  }

  /**
   * The confirmation always opens with the success text, then names the
   * refund id, and the dollar figure it quotes reads back as the amount.
   */
  lemma RefundMessageContents(amountCents: int, orderId: string)
    ensures var m := ProcessRefund(amountCents, orderId);
      var id := RefundId(orderId, amountCents);
      var k := |RefundSuccessPrefix| + |id| + |RefundCreditText|;
      && m[..|RefundSuccessPrefix|] == RefundSuccessPrefix
      && m[|RefundSuccessPrefix|..|RefundSuccessPrefix| + |id|] == id
      && k + |CentsToString(amountCents)| <= |m|
      && IsCentsText(m[k..k + |CentsToString(amountCents)|])
      && ParseCents(m[k..k + |CentsToString(amountCents)|]) == amountCents
  {
    var id := RefundId(orderId, amountCents);
    var c := CentsToString(amountCents);
    var head := RefundSuccessPrefix + id + RefundCreditText;
    var m := ProcessRefund(amountCents, orderId);
    assert m == head + c + RefundClosingText;
    SliceOfJoin(head, c, RefundClosingText);
    assert m[..|RefundSuccessPrefix|] == head[..|RefundSuccessPrefix|];
    assert m[|RefundSuccessPrefix|..|RefundSuccessPrefix| + |id|] == head[|RefundSuccessPrefix|..|RefundSuccessPrefix| + |id|];
    SliceOfJoin(RefundSuccessPrefix, id, RefundCreditText);
    CentsRoundTrip(amountCents);
  }
}
