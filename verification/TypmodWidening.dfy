/** Whether a change of a type's length, precision or scale is taken to be safe. */
module TypmodWidening {
  import opened Text

  // ----- the modifier within a rendered type

  /** The name without its modifier, and the modifier with its brackets. */
  function SplitTypeNameAndMods(rendered: string): (string, string) {
    var open := IndexByte(rendered, '(');
    if open.None? then (rendered, "")
    else
      var closeRel := IndexByte(rendered[open.value..], ')');
      if closeRel.None? then (rendered, "")
      else
        var closeAbs := open.value + closeRel.value;
        (rendered[..open.value] + rendered[closeAbs + 1..], rendered[open.value..closeAbs + 1])
  }

  predicate HasSuffix(s: string, suffix: string) {
    |s| >= |suffix| && s[|s| - |suffix|..] == suffix
  }

  // ----- integers in text

  const MAX_INT: int := 0x7FFF_FFFF_FFFF_FFFF

  predicate IsDigit(c: char) {
    '0' <= c <= '9'
  }

  function Digits(s: string): int {
    if s == [] then 0 else Digits(s[..|s| - 1]) * 10 + (s[|s| - 1] as int - '0' as int)
  }

  /** Decimal digits after at most one sign; nothing if the number needs more than 64 bits. */
  function Atoi(s: string): Option<int> {
    var signed := s != [] && (s[0] == '-' || s[0] == '+');
    var digits := if signed then s[1..] else s;
    if digits == [] || exists i :: 0 <= i < |digits| && !IsDigit(digits[i]) then None
    else
      var n := if signed && s[0] == '-' then -Digits(digits) else Digits(digits);
      if -MAX_INT - 1 <= n <= MAX_INT then Some(n) else None
  }

  function NatText(n: nat): (s: string)
    ensures s != [] && forall i :: 0 <= i < |s| ==> IsDigit(s[i])
  {
    var last := [('0' as int + n % 10) as char];
    if n < 10 then last else NatText(n / 10) + last
  }

  function IntText(n: int): string {
    if n < 0 then "-" + NatText(-n) else NatText(n)
  }

  lemma {:induction false} DigitsOfNatText(n: nat)
    ensures Digits(NatText(n)) == n
  {
    var s := NatText(n);
    if n < 10 {
      assert s[..|s| - 1] == [];
    } else {
      DigitsOfNatText(n / 10);
      assert s[..|s| - 1] == NatText(n / 10);
    }
  }

  lemma IntTextReads(n: int)
    requires -MAX_INT <= n <= MAX_INT
    ensures Atoi(IntText(n)) == Some(n)
  {
    var digits := if n < 0 then NatText(-n) else NatText(n);
    DigitsOfNatText(if n < 0 then -n else n);
    assert n < 0 ==> IntText(n)[1..] == digits;
    assert IsDigit(digits[0]);
  }

  /** A number's text holds no separator, bracket or space. */
  lemma IntTextPlain(n: int, i: nat)
    requires i < |IntText(n)|
    ensures IsDigit(IntText(n)[i]) || IntText(n)[i] == '-'
  {
    if n < 0 && i > 0 {
      assert IntText(n)[i] == NatText(-n)[i - 1];
    }
  }

  // ----- the integers of a modifier

  /** Every piece's integer, or nothing if one does not read. */
  function IntsOf(parts: seq<string>): Option<seq<int>> {
    if parts == [] then Some([])
    else
      var front := IntsOf(parts[..|parts| - 1]);
      var n := Atoi(TrimSpace(parts[|parts| - 1]));
      if front.None? || n.None? then None else Some(front.value + [n.value])
  }

  function ModInts(mods: string): Option<seq<int>> {
    if |mods| < 2 || mods[0] != '(' || mods[|mods| - 1] != ')' then None
    else IntsOf(SplitOn(mods[1..|mods| - 1], ','))
  }

  lemma {:induction false} OneBadPart(parts: seq<string>, n: nat)
    requires n <= |parts| && IntsOf(parts[..n]).None?
    ensures IntsOf(parts).None?
    decreases |parts|
  {
    if n == |parts| {
      assert parts[..n] == parts;
    } else {
      assert parts[..|parts| - 1][..n] == parts[..n];
      OneBadPart(parts[..|parts| - 1], n);
    }
  }

  method ParseModInts(mods: string) returns (r: Option<seq<int>>)
    ensures r == ModInts(mods)
  {
    if |mods| < 2 || mods[0] != '(' || mods[|mods| - 1] != ')' {
      return None;
    }
    var parts := SplitOn(mods[1..|mods| - 1], ',');
    var out := [];
    for i := 0 to |parts|
      invariant IntsOf(parts[..i]) == Some(out)
    {
      var n := Atoi(TrimSpace(parts[i]));
      assert parts[..i + 1][..i] == parts[..i];
      if n.None? {
        OneBadPart(parts, i + 1);
        return None;
      }
      out := out + [n.value];
    }
    assert parts[..|parts|] == parts;
    return Some(out);
  }

  // ----- the rules

  predicate LengthWideningSafe(fromMods: string, toMods: string) {
    toMods == "" ||
    (fromMods != "" &&
     var fromN, toN := ModInts(fromMods), ModInts(toMods);
     fromN.Some? && |fromN.value| == 1 && toN.Some? && |toN.value| == 1 && toN.value[0] >= fromN.value[0])
  }

  /** Precision and scale, which is zero if it is not given. */
  function Scale(mods: seq<int>): int
    requires 0 < |mods| <= 2
  {
    if |mods| == 2 then mods[1] else 0
  }

  predicate NumericWideningSafe(fromMods: string, toMods: string) {
    toMods == "" ||
    (fromMods != "" &&
     var fromN, toN := ModInts(fromMods), ModInts(toMods);
     fromN.Some? && 0 < |fromN.value| <= 2 && toN.Some? && 0 < |toN.value| <= 2
     && toN.value[0] >= fromN.value[0] && Scale(toN.value) >= Scale(fromN.value))
  }

  predicate PrecisionWideningSafe(fromMods: string, toMods: string) {
    LengthWideningSafe(fromMods, toMods)
  }

  predicate IsVarying(base: string) {
    base == "character varying" || base == "bit varying"
  }

  predicate IsMoment(base: string) {
    || base == "time without time zone" || base == "time with time zone"
    || base == "timestamp without time zone" || base == "timestamp with time zone" || base == "interval"
  }

  /** The rule for each kind of type; a bit column's length never changes safely. */
  predicate WideningSafeFor(base: string, fromMods: string, toMods: string) {
    if IsVarying(base) then LengthWideningSafe(fromMods, toMods)
    else if base == "character" then fromMods != "" && toMods != "" && LengthWideningSafe(fromMods, toMods)
    else if base == "numeric" then NumericWideningSafe(fromMods, toMods)
    else IsMoment(base) && PrecisionWideningSafe(fromMods, toMods)
  }

  predicate TypmodWideningSafe(from: string, to: string) {
    !HasSuffix(from, "[]") && !HasSuffix(to, "[]") &&
    var (fromBase, fromMods) := SplitTypeNameAndMods(from);
    var (toBase, toMods) := SplitTypeNameAndMods(to);
    fromBase == toBase && WideningSafeFor(fromBase, fromMods, toMods)
  }

  /** Two safe changes in a row are one safe change, whatever the texts. */
  lemma SafeIsTransitive(a: string, b: string, c: string)
    requires TypmodWideningSafe(a, b) && TypmodWideningSafe(b, c)
    ensures TypmodWideningSafe(a, c)
  {
  }

  // ----- rendered types

  /** A type's text: the modifier stands somewhere in the name. */
  function Rendered(base: string, at: nat, mods: string): string
    requires at <= |base|
  {
    base[..at] + mods + base[at..]
  }

  predicate PlainName(base: string) {
    base != [] && '(' !in base && ')' !in base && base[|base| - 1] != ']'
  }

  predicate IsMods(mods: string) {
    mods == "" || (|mods| >= 2 && mods[0] == '(' && mods[|mods| - 1] == ')' && ')' !in mods[..|mods| - 1])
  }

  lemma RenderedPieces(front: string, mods: string, back: string)
    requires mods != []
    ensures var s := front + mods + back;
      && s[..|front|] == front && s[|front|] == mods[0] && s[|front|..] == mods + back
      && s[|front|..][..|mods| - 1] == mods[..|mods| - 1] && s[|front|..][|mods| - 1] == mods[|mods| - 1]
      && s[|front|..|front| + |mods|] == mods && s[|front| + |mods|..] == back
  {
  }

  /** Splitting takes the modifier out again, wherever in the name it stands. */
  lemma SplitOfRendered(base: string, at: nat, mods: string)
    requires PlainName(base) && at <= |base| && IsMods(mods)
    ensures SplitTypeNameAndMods(Rendered(base, at, mods)) == (base, mods)
    ensures !HasSuffix(Rendered(base, at, mods), "[]")
  {
    var s := Rendered(base, at, mods);
    if mods == "" {
      assert s == base;
    } else {
      RenderedPieces(base[..at], mods, base[at..]);
      IndexByteAt(s, '(', at);
      IndexByteAt(s[at..], ')', |mods| - 1);
      CutInTwo(base, at);
    }
    assert s[|s| - 1] != ']';
  }

  function OneMod(n: Option<int>): string {
    if n.None? then "" else "(" + IntText(n.value) + ")"
  }

  lemma PlainText(n: int, c: char)
    requires !IsDigit(c) && c != '-'
    ensures c !in IntText(n)
  {
    forall i | 0 <= i < |IntText(n)| ensures IntText(n)[i] != c {
      IntTextPlain(n, i);
    }
  }

  lemma TrimsToItself(n: int)
    ensures TrimSpace(IntText(n)) == IntText(n)
  {
    var s := IntText(n);
    IntTextPlain(n, 0);
    IntTextPlain(n, |s| - 1);
    TrimSpaceAround("", s, "");
    assert "" + s + "" == s;
  }

  lemma OneModReads(n: int)
    requires -MAX_INT <= n <= MAX_INT
    ensures IsMods(OneMod(Some(n))) && ModInts(OneMod(Some(n))) == Some([n])
  {
    var s, mods := IntText(n), OneMod(Some(n));
    PlainText(n, ')');
    PlainText(n, ',');
    assert mods[1..|mods| - 1] == s && mods[..|mods| - 1] == "(" + s;
    IntTextReads(n);
    TrimsToItself(n);
    assert SplitOn(s, ',') == [s];
    assert [s][..0] == [];
    assert IntsOf([s]) == Some([] + [n]) && [] + [n] == [n];
  }

  function TwoMods(p: int, s: int): string {
    "(" + IntText(p) + "," + IntText(s) + ")"
  }

  lemma TwoModsRead(p: int, s: int)
    requires -MAX_INT <= p <= MAX_INT && -MAX_INT <= s <= MAX_INT
    ensures IsMods(TwoMods(p, s)) && ModInts(TwoMods(p, s)) == Some([p, s])
  {
    var a, b, mods := IntText(p), IntText(s), TwoMods(p, s);
    PlainText(p, ')');
    PlainText(s, ')');
    PlainText(p, ',');
    PlainText(s, ',');
    var inner := a + "," + b;
    assert mods[1..|mods| - 1] == inner && mods[..|mods| - 1] == "(" + inner;
    IndexByteAt(inner, ',', |a|);
    assert inner[..|a|] == a && inner[|a| + 1..] == b;
    assert SplitOn(b, ',') == [b];
    assert SplitOn(inner, ',') == [a, b];
    TwoPartsRead(p, s);
  }

  lemma TwoPartsRead(p: int, s: int)
    requires -MAX_INT <= p <= MAX_INT && -MAX_INT <= s <= MAX_INT
    ensures IntsOf([IntText(p), IntText(s)]) == Some([p, s])
  {
    var a, b := IntText(p), IntText(s);
    IntTextReads(p);
    IntTextReads(s);
    TrimsToItself(p);
    TrimsToItself(s);
    assert [a, b][..1] == [a] && [a][..0] == [];
    assert IntsOf([a]) == Some([] + [p]) && [] + [p] == [p] && [p] + [s] == [p, s];
  }

  lemma RenderedRule(base: string, at: nat, from: string, to: string)
    requires PlainName(base) && at <= |base| && IsMods(from) && IsMods(to)
    ensures TypmodWideningSafe(Rendered(base, at, from), Rendered(base, at, to)) <==> WideningSafeFor(base, from, to)
  {
    SplitOfRendered(base, at, from);
    SplitOfRendered(base, at, to);
  }
}
