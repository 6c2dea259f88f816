/** What an accepted change of a type's modifier means for the values stored. */
module WideningKeepsValues {
  import opened Text
  import opened TypmodWidening
  import opened NumericValues

  /** A bounded length holds what is no longer; without a bound every length is held. */
  predicate HoldsLength(bound: Option<int>, length: nat) {
    bound.None? || length <= bound.value
  }

  ghost predicate LengthsKept(from: Option<int>, to: Option<int>) {
    forall length {:trigger HoldsLength(to, length)} :: HoldsLength(from, length) ==> HoldsLength(to, length)
  }

  predicate IsLength(bound: Option<int>) {
    bound.Some? ==> 0 < bound.value <= MAX_INT
  }

  lemma ModsRead(bound: Option<int>)
    requires bound.Some? ==> -MAX_INT <= bound.value <= MAX_INT
    ensures IsMods(OneMod(bound)) && (bound.None? <==> OneMod(bound) == "")
    ensures bound.Some? ==> ModInts(OneMod(bound)) == Some([bound.value])
  {
    if bound.Some? {
      OneModReads(bound.value);
    }
  }

  lemma LengthRule(from: Option<int>, to: Option<int>)
    requires from.Some? ==> -MAX_INT <= from.value <= MAX_INT
    requires to.Some? ==> -MAX_INT <= to.value <= MAX_INT
    ensures LengthWideningSafe(OneMod(from), OneMod(to)) <==> to.None? || (from.Some? && from.value <= to.value)
  {
    ModsRead(from);
    ModsRead(to);
  }

  lemma LengthsKeptIff(from: Option<int>, to: Option<int>)
    requires IsLength(from) && IsLength(to)
    ensures LengthsKept(from, to) <==> to.None? || (from.Some? && from.value <= to.value)
  {
    if to.Some? {
      assert !HoldsLength(to, to.value + 1);
      assert from.Some? ==> (HoldsLength(to, from.value) <==> from.value <= to.value);
    }
  }

  lemma VaryingPlain(base: string)
    requires IsVarying(base)
    ensures PlainName(base)
  {
  }

  /** Varying lengths: a change is accepted exactly when every value still fits. */
  lemma VaryingAcceptedIff(base: string, at: nat, from: Option<int>, to: Option<int>)
    requires IsVarying(base) && at <= |base| && IsLength(from) && IsLength(to)
    ensures TypmodWideningSafe(Rendered(base, at, OneMod(from)), Rendered(base, at, OneMod(to)))
      <==> LengthsKept(from, to)
  {
    ModsRead(from);
    ModsRead(to);
    VaryingPlain(base);
    RenderedRule(base, at, OneMod(from), OneMod(to));
    LengthRule(from, to);
    LengthsKeptIff(from, to);
  }

  lemma CharacterNameRule(from: string, to: string)
    requires IsMods(from) && IsMods(to)
    ensures TypmodWideningSafe(Rendered("character", 9, from), Rendered("character", 9, to))
      <==> from != "" && to != "" && LengthWideningSafe(from, to)
  {
    RenderedRule("character", 9, from, to);
  }

  /** A character column without a length holds one character. */
  function FixedLength(bound: Option<int>): int {
    if bound.None? then 1 else bound.value
  }

  /** Fixed lengths: a change is accepted exactly when both lengths are written and every value still fits. */
  lemma CharacterAcceptedIff(from: Option<int>, to: Option<int>)
    requires IsLength(from) && IsLength(to)
    ensures TypmodWideningSafe(Rendered("character", 9, OneMod(from)), Rendered("character", 9, OneMod(to)))
      <==> from.Some? && to.Some? && LengthsKept(Some(FixedLength(from)), Some(FixedLength(to)))
  {
    ModsRead(from);
    ModsRead(to);
    CharacterNameRule(OneMod(from), OneMod(to));
    LengthRule(from, to);
    LengthsKeptIff(Some(FixedLength(from)), Some(FixedLength(to)));
  }

  const MAX_PRECISION: int := 6

  predicate IsPrecision(bound: Option<int>) {
    bound.Some? ==> 0 <= bound.value <= MAX_PRECISION
  }

  /** How many digits of a second are kept; all there are without a precision. */
  function KeptDigits(bound: Option<int>): int {
    if bound.None? then MAX_PRECISION else bound.value
  }

  ghost predicate DigitsKept(from: Option<int>, to: Option<int>) {
    LengthsKept(Some(KeptDigits(from)), Some(KeptDigits(to)))
  }

  lemma MomentPlain(base: string)
    requires IsMoment(base)
    ensures PlainName(base) && !IsVarying(base) && base != "character" && base != "numeric"
  {
  }

  lemma MomentNameRule(base: string, at: nat, from: string, to: string)
    requires IsMoment(base) && at <= |base| && IsMods(from) && IsMods(to)
    ensures TypmodWideningSafe(Rendered(base, at, from), Rendered(base, at, to)) <==> LengthWideningSafe(from, to)
  {
    MomentPlain(base);
    RenderedRule(base, at, from, to);
  }

  /** Times: an accepted change keeps every digit, and one that does is accepted
      unless it writes out the precision the bare type already has. */
  lemma MomentAcceptedIff(base: string, at: nat, from: Option<int>, to: Option<int>)
    requires IsMoment(base) && at <= |base| && IsPrecision(from) && IsPrecision(to)
    ensures TypmodWideningSafe(Rendered(base, at, OneMod(from)), Rendered(base, at, OneMod(to)))
      <==> DigitsKept(from, to) && !(from.None? && to == Some(MAX_PRECISION))
  {
    ModsRead(from);
    ModsRead(to);
    MomentNameRule(base, at, OneMod(from), OneMod(to));
    LengthRule(from, to);
    assert HoldsLength(Some(KeptDigits(from)), KeptDigits(from));
    assert HoldsLength(Some(KeptDigits(to)), KeptDigits(from)) <==> KeptDigits(from) <= KeptDigits(to);
  }

  predicate IsNumeric(p: int, s: int) {
    1 <= p <= MAX_INT && -MAX_INT <= s <= MAX_INT
  }

  /** A numeric modifier's text; the scale need not be written. */
  function NumericMods(p: int, s: Option<int>): string {
    if s.None? then OneMod(Some(p)) else TwoMods(p, s.value)
  }

  function ScaleOf(s: Option<int>): int {
    if s.None? then 0 else s.value
  }

  function Numeric(p: int, s: Option<int>): string {
    Rendered("numeric", 7, NumericMods(p, s))
  }

  lemma NumericModsRead(p: int, s: Option<int>)
    requires IsNumeric(p, ScaleOf(s))
    ensures IsMods(NumericMods(p, s)) && NumericMods(p, s) != "" && ModInts(NumericMods(p, s)).Some?
    ensures var ns := ModInts(NumericMods(p, s)).value; 0 < |ns| <= 2 && ns[0] == p && Scale(ns) == ScaleOf(s)
  {
    if s.None? {
      OneModReads(p);
    } else {
      TwoModsRead(p, s.value);
    }
  }

  lemma NumericModsRule(p: int, s: Option<int>, q: int, t: Option<int>)
    requires IsNumeric(p, ScaleOf(s)) && IsNumeric(q, ScaleOf(t))
    ensures NumericWideningSafe(NumericMods(p, s), NumericMods(q, t)) <==> p <= q && ScaleOf(s) <= ScaleOf(t)
  {
    NumericModsRead(p, s);
    NumericModsRead(q, t);
  }

  lemma NumericNameRule(from: string, to: string)
    requires IsMods(from) && IsMods(to)
    ensures TypmodWideningSafe(Rendered("numeric", 7, from), Rendered("numeric", 7, to)) <==>
      NumericWideningSafe(from, to)
  {
    RenderedRule("numeric", 7, from, to);
  }

  lemma NumericRule(p: int, s: Option<int>, q: int, t: Option<int>)
    requires IsNumeric(p, ScaleOf(s)) && IsNumeric(q, ScaleOf(t))
    ensures TypmodWideningSafe(Numeric(p, s), Numeric(q, t)) <==> p <= q && ScaleOf(s) <= ScaleOf(t)
  {
    NumericModsRead(p, s);
    NumericModsRead(q, t);
    NumericModsRule(p, s, q, t);
    NumericNameRule(NumericMods(p, s), NumericMods(q, t));
  }

  /** A change of precision and scale that keeps every number is always accepted; one
      that is accepted keeps them exactly when the digits before the point do not get fewer. */
  lemma NumericKeepsIff(p: nat, s: Option<int>, q: nat, t: Option<int>)
    requires IsNumeric(p, ScaleOf(s)) && IsNumeric(q, ScaleOf(t))
    ensures NumbersKept(p, ScaleOf(s), q, ScaleOf(t))
      <==> TypmodWideningSafe(Numeric(p, s), Numeric(q, t)) && p - ScaleOf(s) <= q - ScaleOf(t)
  {
    NumericRule(p, s, q, t);
    NumbersKeptIff(p, ScaleOf(s), q, ScaleOf(t));
  }

  /** An accepted change that loses a number: five digits, then six of which four are decimals. */
  lemma AcceptedButLossy()
    ensures TypmodWideningSafe(Numeric(5, Some(0)), Numeric(6, Some(4))) && !NumbersKept(5, 0, 6, 4)
  {
    NumericRule(5, Some(0), 6, Some(4));
    NumbersKeptIff(5, 0, 6, 4);
  }

  /** Taking the bound away is accepted and putting one on is not. */
  lemma NumericUnbounded(p: int, s: Option<int>)
    requires IsNumeric(p, ScaleOf(s))
    ensures TypmodWideningSafe(Numeric(p, s), "numeric") && !TypmodWideningSafe("numeric", Numeric(p, s))
  {
    NumericModsRead(p, s);
    NumericNameRule(NumericMods(p, s), "");
    NumericNameRule("", NumericMods(p, s));
    assert Rendered("numeric", 7, "") == "numeric";
  }
}
