/** Token lists whose text reads as those tokens again: what may be cut off them
    and put together. */
module FaithfulTokens {
  import opened Text
  import opened Scanner
  import opened ScannerFacts
  import opened FormatLexer
  import opened LexLocality

  predicate Faithful(ts: seq<Lexeme>, keywords: set<string>) {
    Lex(Texts(ts), keywords) == ts
  }

  predicate Closes(t: Lexeme) {
    t.typ == Semicolon || t.typ == RBrace
  }

  predicate EndsClosed(ts: seq<Lexeme>) {
    ts != [] && Closes(ts[|ts| - 1])
  }

  lemma LexIsFaithful(s: string, keywords: set<string>)
    ensures Faithful(Lex(s, keywords), keywords)
  {
    LexIsLossless(s, keywords);
  }

  lemma {:induction false} TextsJoin(a: seq<Lexeme>, b: seq<Lexeme>)
    ensures Texts(a + b) == Texts(a) + Texts(b)
  {
    if a == [] {
      assert a + b == b;
    } else {
      assert (a + b)[1..] == a[1..] + b;
      TextsJoin(a[1..], b);
    }
  }

  /** The token is the first one read when this text follows it. */
  predicate Heads(t: Lexeme, y: string, keywords: set<string>) {
    t.text != [] && FirstRest(t.text + y) == y && FirstType(t.text + y, keywords) == t.typ
  }

  /** The first token of a faithful list, and the rest. */
  lemma FaithfulHead(ts: seq<Lexeme>, keywords: set<string>)
    requires Faithful(ts, keywords) && ts != []
    ensures Heads(ts[0], Texts(ts[1..]), keywords) && Faithful(ts[1..], keywords)
  {
    var s := Texts(ts);
    FirstSuffix(s);
    assert ts[0] == Lexeme(FirstType(s, keywords), FirstText(s));
    assert ts[0].text + Texts(ts[1..]) == FirstText(s) + FirstRest(s);
    assert FirstRest(s) == s[|FirstText(s)|..] == Texts(ts[1..]);
    assert ts[1..] == Lex(FirstRest(s), keywords);
  }

  lemma ConsFaithful(first: Lexeme, ts: seq<Lexeme>, keywords: set<string>)
    requires Faithful(ts, keywords) && Heads(first, Texts(ts), keywords)
    ensures Faithful([first] + ts, keywords)
  {
    assert ([first] + ts)[1..] == ts;
    LexStep(first.text, Texts(ts), keywords);
  }

  lemma {:induction false} FaithfulSuffix(ts: seq<Lexeme>, n: nat, keywords: set<string>)
    requires Faithful(ts, keywords) && n <= |ts|
    ensures Faithful(ts[n..], keywords)
  {
    if n > 0 {
      FaithfulHead(ts, keywords);
      FaithfulSuffix(ts[1..], n - 1, keywords);
      assert ts[1..][n - 1..] == ts[n..];
    } else {
      assert ts[0..] == ts;
    }
  }

  /** A closing token is one character, and it is read whatever follows it. */
  lemma ClosingHeads(t: Lexeme, y: string, z: string, keywords: set<string>)
    requires Closes(t) && Heads(t, y, keywords)
    ensures (t.text == ";" || t.text == "}") && Heads(t, z, keywords)
  {
    assert (t.text + y)[0] == t.text[0];
    assert (t.text + z)[1..] == z;
  }

  predicate EndsInMark(s: string) {
    s != [] && (s[|s| - 1] == ';' || s[|s| - 1] == '}')
  }

  lemma ClosedEndsInMark(ts: seq<Lexeme>, keywords: set<string>)
    requires Faithful(ts, keywords) && EndsClosed(ts)
    ensures EndsInMark(Texts(ts))
  {
    var n := |ts| - 1;
    FaithfulSuffix(ts, n, keywords);
    OneClosingText(ts[n], ts[n..], keywords);
    CutInTwo(ts, n);
    TextsJoin(ts[..n], ts[n..]);
    MarkStays(Texts(ts[..n]), Texts(ts[n..]));
  }

  lemma OneClosingText(t: Lexeme, ts: seq<Lexeme>, keywords: set<string>)
    requires ts == [t] && Faithful(ts, keywords) && Closes(t)
    ensures EndsInMark(Texts(ts))
  {
    FaithfulHead(ts, keywords);
    ClosingHeads(t, Texts(ts[1..]), "", keywords);
    OnEmpty(t.text);
  }

  lemma MarkStays(a: string, b: string)
    requires EndsInMark(b)
    ensures EndsInMark(a + b)
  {
  }

  /** Text up to a closing mark decides what stands in front of it. */
  lemma AlikeFromMark(c: string, x: string, x': string)
    requires EndsInMark(c)
    ensures Alike(c + x, c + x')
  {
    WordBeforeMark(c, x);
    WordBeforeMark(c, x');
    assert ("$" + (c + x))[1..] == c + x && ("$" + (c + x'))[1..] == c + x';
    assert (c + x)[0] == c[0] && (c + x')[0] == c[0];
  }

  lemma {:induction false} WordBeforeMark(c: string, x: string)
    requires EndsInMark(c)
    ensures Word(c + x) == Word(c) && |Word(c)| < |c|
    ensures AfterWord(c + x) != [] && AfterWord(c + x)[0] == c[|Word(c)|]
  {
    assert (c + x)[0] == c[0];
    if IsWordChar(c[0]) {
      assert (c + x)[1..] == c[1..] + x;
      WordBeforeMark(c[1..], x);
    }
  }

  /** So a token before such text is read whatever follows the text. */
  lemma HeadsBeforeMark(t: Lexeme, c: string, x: string, x': string, keywords: set<string>)
    requires EndsInMark(c) && Heads(t, c + x, keywords)
    ensures Heads(t, c + x', keywords)
  {
    AlikeFromMark(c, x, x');
    FirstLocal(t.text, t.text, c + x, c + x', keywords);
  }

  predicate ClosedAfter(t: Lexeme, ts: seq<Lexeme>) {
    if ts == [] then Closes(t) else EndsClosed(ts)
  }

  /** The same for a token and those after it up to a closing one. */
  lemma HeadsAnyhow(t: Lexeme, ts: seq<Lexeme>, x: string, x': string, keywords: set<string>)
    requires Faithful(ts, keywords) && ClosedAfter(t, ts) && Heads(t, Texts(ts) + x, keywords)
    ensures Heads(t, Texts(ts) + x', keywords)
  {
    if ts == [] {
      OnEmpty(x);
      OnEmpty(x');
      ClosingHeads(t, x, x', keywords);
    } else {
      ClosedEndsInMark(ts, keywords);
      HeadsBeforeMark(t, Texts(ts), x, x', keywords);
    }
  }

  /** A faithful list can be cut after a closing token. */
  lemma {:induction false} FaithfulPrefix(a: seq<Lexeme>, b: seq<Lexeme>, keywords: set<string>)
    requires Faithful(a + b, keywords) && EndsClosed(a)
    ensures Faithful(a, keywords)
  {
    FaithfulHead(a + b, keywords);
    var ts := a[1..];
    assert (a + b)[1..] == ts + b;
    if ts != [] {
      FaithfulPrefix(ts, b, keywords);
    }
    TextsJoin(ts, b);
    HeadsAnyhow(a[0], ts, Texts(b), "", keywords);
    OnEmpty(Texts(ts));
    ConsFaithful(a[0], ts, keywords);
    assert a == [a[0]] + ts;
  }

  /** After a closing token any faithful list may follow. */
  lemma {:induction false} FaithfulJoin(a: seq<Lexeme>, b: seq<Lexeme>, keywords: set<string>)
    requires Faithful(a, keywords) && EndsClosed(a) && Faithful(b, keywords)
    ensures Faithful(a + b, keywords)
  {
    FaithfulHead(a, keywords);
    var ts := a[1..];
    if ts == [] {
      OnEmpty(b);
    } else {
      FaithfulJoin(ts, b, keywords);
    }
    OnEmpty(Texts(ts));
    HeadsAnyhow(a[0], ts, "", Texts(b), keywords);
    TextsJoin(ts, b);
    ConsFaithful(a[0], ts + b, keywords);
    ConsRest(a, b);
  }
}
