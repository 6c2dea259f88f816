/** Text helpers with the meaning Go's strings package gives them on ASCII text. */
module Text {

  datatype Option<+T> = None | Some(value: T) {
    predicate IsFailure() { None? }

    function PropagateFailure<U>(): Option<U>
      requires None?
    {
      None
    }

    function Extract(): T
      requires Some?
    {
      value
    }
  }

  function UpperChar(c: char): char {
    if 'a' <= c <= 'z' then c - ' ' else c
  }

  function LowerChar(c: char): char {
    if 'A' <= c <= 'Z' then c + ' ' else c
  }

  function ToUpper(s: string): (r: string) {
    seq(|s|, i requires 0 <= i < |s| => UpperChar(s[i]))
  }

  function ToLower(s: string): (r: string) {
    seq(|s|, i requires 0 <= i < |s| => LowerChar(s[i]))
  }

  predicate IsSpace(c: char) {
    c == ' ' || c == '\t' || c == '\n' || c == '\r' || c == 11 as char || c == 12 as char
  }

  function TrimLeft(s: string): (r: string) {
    if s != [] && IsSpace(s[0]) then TrimLeft(s[1..]) else s
  }

  function TrimRight(s: string): (r: string) {
    if s != [] && IsSpace(s[|s| - 1]) then TrimRight(s[..|s| - 1]) else s
  }

  function TrimSpace(s: string): string {
    TrimRight(TrimLeft(s))
  }

  /** Neither end is white space. */
  predicate Trimmed(s: string) {
    s != [] ==> !IsSpace(s[0]) && !IsSpace(s[|s| - 1])
  }

  predicate AllSpace(s: string) {
    forall i :: 0 <= i < |s| ==> IsSpace(s[i])
  }

  predicate HasPrefixAt(s: string, at: nat, sub: string) {
    at + |sub| <= |s| && s[at..at + |sub|] == sub
  }

  /** Position of the first occurrence of sub at or after from, if any. */
  function IndexFrom(s: string, sub: string, from: nat): (r: Option<nat>)
    decreases |s| - from
    ensures r.Some? ==> from <= r.value && r.value + |sub| <= |s|
  {
    if HasPrefixAt(s, from, sub) then Some(from)
    else if from >= |s| then None
    else IndexFrom(s, sub, from + 1)
  }

  function Index(s: string, sub: string): Option<nat> {
    IndexFrom(s, sub, 0)
  }

  lemma {:induction false} IndexIsFirst(s: string, sub: string, from: nat, at: nat)
    requires from <= at && HasPrefixAt(s, at, sub)
    requires forall k: nat :: from <= k < at ==> !HasPrefixAt(s, k, sub)
    ensures IndexFrom(s, sub, from) == Some(at)
    decreases at - from
  {
    if from < at {
      assert !HasPrefixAt(s, from, sub);
      IndexIsFirst(s, sub, from + 1, at);
    }
  }

  lemma {:induction false} IndexFound(s: string, sub: string, from: nat)
    requires IndexFrom(s, sub, from).Some?
    ensures var at := IndexFrom(s, sub, from).value;
      from <= at && HasPrefixAt(s, at, sub) && forall k: nat :: from <= k < at ==> !HasPrefixAt(s, k, sub)
    decreases |s| - from
  {
    if !HasPrefixAt(s, from, sub) {
      IndexFound(s, sub, from + 1);
    }
  }

  /** Splits at the first separator, if there is one. */
  function Cut(s: string, sep: char): Option<(string, string)> {
    if s == [] then None
    else if s[0] == sep then Some(([], s[1..]))
    else
      match Cut(s[1..], sep)
      case None => None
      case Some((a, b)) => Some(([s[0]] + a, b))
  }

  // ----- trimming

  lemma {:induction false} TrimLeftSkips(w: string, s: string)
    requires AllSpace(w) && (s != [] ==> !IsSpace(s[0]))
    ensures TrimLeft(w + s) == s
  {
    if w == [] {
      assert w + s == s;
    } else {
      assert (w + s)[1..] == w[1..] + s;
      TrimLeftSkips(w[1..], s);
    }
  }

  lemma {:induction false} TrimRightSkips(s: string, w: string)
    requires AllSpace(w) && (s != [] ==> !IsSpace(s[|s| - 1]))
    ensures TrimRight(s + w) == s
  {
    if w == [] {
      assert s + w == s;
    } else {
      assert (s + w)[..|s + w| - 1] == s + w[..|w| - 1];
      TrimRightSkips(s, w[..|w| - 1]);
    }
  }

  lemma TrimSpaceAround(w: string, s: string, w': string)
    requires AllSpace(w) && AllSpace(w') && s != [] && Trimmed(s)
    ensures TrimSpace(w + s + w') == s
  {
    assert w + s + w' == w + (s + w');
    TrimLeftSkips(w, s + w');
    TrimRightSkips(s, w');
  }

  // ----- single characters

  function IndexByte(s: string, c: char): (r: Option<nat>)
    ensures r.Some? ==> r.value < |s| && s[r.value] == c && c !in s[..r.value]
    ensures r.None? ==> c !in s
  {
    if s == [] then None
    else if s[0] == c then Some(0)
    else
      var rest := IndexByte(s[1..], c);
      assert s == [s[0]] + s[1..];
      if rest.None? then None
      else
        assert s[..rest.value + 1] == [s[0]] + s[1..][..rest.value];
        Some(rest.value + 1)
  }

  lemma {:induction false} IndexByteAt(s: string, c: char, at: nat)
    requires at < |s| && s[at] == c && c !in s[..at]
    ensures IndexByte(s, c) == Some(at)
  {
    if at > 0 {
      assert s[..at][0] == s[0];
      assert s[1..][..at - 1] == s[..at][1..];
      IndexByteAt(s[1..], c, at - 1);
    }
  }

  /** The pieces between the separators. */
  function SplitOn(s: string, sep: char): (r: seq<string>)
    ensures r != []
    decreases |s|
  {
    var at := IndexByte(s, sep);
    if at.None? then [s] else [s[..at.value]] + SplitOn(s[at.value + 1..], sep)
  }

  // ----- quotes

  function Double(s: string, q: char): string {
    if s == [] then [] else (if s[0] == q then [q, q] else [s[0]]) + Double(s[1..], q)
  }

  function InQuotes(s: string, q: char): string {
    [q] + Double(s, q) + [q]
  }

  // ----- putting texts together

  lemma Assoc<T>(a: seq<T>, b: seq<T>, c: seq<T>)
    ensures a + b + c == a + (b + c)
  {
  }

  lemma Assoc4<T>(a: seq<T>, b: seq<T>, c: seq<T>, d: seq<T>)
    ensures a + (b + (c + d)) == a + b + c + d
  {
  }

  lemma FrontAndRest<T>(a: seq<T>, b: seq<T>)
    ensures (a + b)[..|a|] == a && (a + b)[|a|..] == b
  {
  }

  lemma ConsRest<T>(a: seq<T>, b: seq<T>)
    requires a != []
    ensures a + b == [a[0]] + (a[1..] + b)
  {
  }

  lemma CutInTwo<T>(a: seq<T>, n: nat)
    requires n <= |a|
    ensures a == a[..n] + a[n..]
  {
  }

  lemma SliceOfSlice<T>(a: seq<T>, i: nat, j: nat, m: nat, n: nat)
    requires i <= j <= |a| && m <= n <= j - i
    ensures a[i..j][m..n] == a[i + m..i + n]
  {
    forall k | 0 <= k < n - m ensures a[i..j][m..n][k] == a[i + m..i + n][k] {
      assert a[i..j][m + k] == a[i + m + k];
    }
  }

  lemma FurtherOn<T>(a: seq<T>, i: nat, n: nat)
    requires i + n <= |a|
    ensures a[i..][n..] == a[i + n..]
  {
  }

  lemma OnEmpty<T>(a: seq<T>)
    ensures a + [] == a && [] + a == a
  {
  }
}
