/**
 * The rule libraries of src/normalizer2.h (27-258) as ordered data.
 *
 * Each rule is named by a constructor of `RuleName`; a library is the
 * ordered list of the rules `make_library` is given. Parsing the rule text
 * is not part of this model: the normaliser takes the parsed rules through a
 * parameter, so the rules themselves stay opaque. Two of them are not sound
 * as written and are kept that way: `BF_SIMPLIFY_ZERO_0` (normalizer2.h:36)
 * rewrites `0 & $X` to `1` instead of `0`, and `WFF_DISTRIBUTE_0`
 * (normalizer2.h:77) rewrites `($X || $Y) && $Z` to
 * `($X && $Y) || ($X && $Z)`, which differs from it for `X = F, Y = T, Z = T`.
 */
module Libraries {
  /** The named rules. */
  datatype RuleName =
    | BfSimplifyOne0 | BfSimplifyOne1 | BfSimplifyOne2 | BfSimplifyOne3 | BfSimplifyOne4
    | BfSimplifyZero0 | BfSimplifyZero1 | BfSimplifyZero2 | BfSimplifyZero3 | BfSimplifyZero4
    | BfSimplifySelf0 | BfSimplifySelf1 | BfSimplifySelf2 | BfSimplifySelf3 | BfSimplifySelf4 | BfSimplifySelf5
    | BfFunctionalQuantifiers0 | BfFunctionalQuantifiers1 | BfSkipConstants0
    | BfDefXor
    | BfCallbackAnd | BfCallbackOr | BfCallbackXor | BfCallbackNeg
    | BfCallbackLess | BfCallbackLessEqual | BfCallbackGreater
    | BfCallbackIsZero | BfCallbackIsOne | BfCallbackEq | BfCallbackNeq
    | BfCallbackClashingSubformulas0 | BfCallbackHasSubformula0
    | WffCallbackClashingSubformulas0 | WffCallbackHasSubformula0
    | WffDistribute0 | WffDistribute1
    | WffPushNegationInwards0 | WffPushNegationInwards1 | WffPushNegationInwards2 | WffPushNegationInwards3
    | WffElimDoubleNegation0 | WffElimForall
    | WffSimplifyOne0 | WffSimplifyOne1 | WffSimplifyOne2 | WffSimplifyOne3 | WffSimplifyOne4
    | WffSimplifyZero0 | WffSimplifyZero1 | WffSimplifyZero2 | WffSimplifyZero3 | WffSimplifyZero4
    | WffSimplifySelf0 | WffSimplifySelf1 | WffSimplifySelf2 | WffSimplifySelf3 | WffSimplifySelf4 | WffSimplifySelf5
    | WffDefXor | WffDefImply | WffDefCoimply | WffDefEquiv
    | BfTriviality0 | BfTriviality1 | BfTriviality2 | BfTriviality3
    | BfPositiveLiteralUpwards0 | BfPositiveLiteralUpwards1 | BfPositiveLiteralUpwards2
    | BfPositiveLiteralUpwards3 | BfPositiveLiteralUpwards4
    | BfSqueezePositives0
    | WffRemoveEx0

  // ---------------------------------------------------------------------------
  // The libraries, in the order `make_library` receives their rules

  const ApplyDefs: seq<RuleName> := [WffDefXor, WffDefImply, WffDefCoimply, WffDefEquiv, BfDefXor]

  const ElimForAll: seq<RuleName> := [WffElimForall]

  const ToDnfWff: seq<RuleName> :=
    [WffDistribute0, WffDistribute1, WffPushNegationInwards0, WffPushNegationInwards1,
     WffPushNegationInwards2, WffPushNegationInwards3, WffElimDoubleNegation0]

  const SimplifyBf: seq<RuleName> :=
    [BfSimplifyOne0, BfSimplifyOne1, BfSimplifyOne2, BfSimplifyOne3, BfSimplifyOne4,
     BfSimplifyZero0, BfSimplifyZero1, BfSimplifyZero2, BfSimplifyZero3, BfSimplifyZero4,
     BfSimplifySelf0, BfSimplifySelf1, BfSimplifySelf2, BfSimplifySelf3, BfSimplifySelf4, BfSimplifySelf5]

  const SimplifyWff: seq<RuleName> :=
    [WffSimplifyOne0, WffSimplifyOne1, WffSimplifyOne2, WffSimplifyOne3, WffSimplifyOne4,
     WffSimplifyZero0, WffSimplifyZero1, WffSimplifyZero2, WffSimplifyZero3, WffSimplifyZero4,
     WffSimplifySelf0, WffSimplifySelf1, WffSimplifySelf2, WffSimplifySelf3, WffSimplifySelf4, WffSimplifySelf5]

  const ApplyCb: seq<RuleName> :=
    [BfCallbackAnd, BfCallbackOr, BfCallbackXor, BfCallbackNeg, BfCallbackLess,
     BfCallbackLessEqual, BfCallbackGreater, BfCallbackEq, BfCallbackNeq]

  const ApplySpeedUpCb: seq<RuleName> :=
    [BfCallbackClashingSubformulas0, BfCallbackHasSubformula0,
     WffCallbackClashingSubformulas0, WffCallbackHasSubformula0]

  const ClauseSimplifyBf: seq<RuleName> := [BfCallbackClashingSubformulas0, BfCallbackHasSubformula0]

  const ClauseSimplifyWff: seq<RuleName> := [WffCallbackClashingSubformulas0, WffCallbackHasSubformula0]

  const SqueezePositives: seq<RuleName> := [BfSqueezePositives0]

  const WffRemoveExistential: seq<RuleName> := [WffRemoveEx0]

  const BfElimQuantifiers: seq<RuleName> := [BfFunctionalQuantifiers0, BfFunctionalQuantifiers1]

  const Trivialities: seq<RuleName> := [BfTriviality0, BfTriviality1, BfTriviality2, BfTriviality3]

  const BfPositivesUpwards: seq<RuleName> :=
    [BfPositiveLiteralUpwards0, BfPositiveLiteralUpwards1, BfPositiveLiteralUpwards2,
     BfPositiveLiteralUpwards3, BfPositiveLiteralUpwards4]
}
