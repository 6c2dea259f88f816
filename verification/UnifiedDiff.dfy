/** The unified diff that fmt prints: its edits, its hunks, and what applying
    the hunks to the old text gives. */
module UnifiedDiff {
  import Text

  const CTX: int := 3

  datatype Edit = Edit(kind: char, oldLine: nat, newLine: nat, text: string)

  /** The lines of the old text among the edits, and of the new. */
  function OldOf(es: seq<Edit>): seq<string> {
    if es == [] then [] else OldOf(es[..|es| - 1]) + if es[|es| - 1].kind != '+' then [es[|es| - 1].text] else []
  }

  function NewOf(es: seq<Edit>): seq<string> {
    if es == [] then [] else NewOf(es[..|es| - 1]) + if es[|es| - 1].kind != '-' then [es[|es| - 1].text] else []
  }

  lemma {:induction false} SidesJoin(a: seq<Edit>, b: seq<Edit>)
    ensures OldOf(a + b) == OldOf(a) + OldOf(b) && NewOf(a + b) == NewOf(a) + NewOf(b)
  {
    if b == [] {
      assert a + b == a;
    } else {
      var front, e := b[..|b| - 1], b[|b| - 1];
      SidesJoin(a, front);
      assert b == front + [e] && a + b == a + front + [e];
      OneMore(a + front, e);
      OneMore(front, e);
      Text.Assoc(OldOf(a), OldOf(front), OldLine(e));
      Text.Assoc(NewOf(a), NewOf(front), NewLine(e));
    }
  }

  /** The line of an edit on either side, if it is on that side. */
  function OldLine(e: Edit): seq<string> {
    if e.kind != '+' then [e.text] else []
  }

  function NewLine(e: Edit): seq<string> {
    if e.kind != '-' then [e.text] else []
  }

  lemma OneMore(es: seq<Edit>, e: Edit)
    ensures OldOf(es + [e]) == OldOf(es) + OldLine(e) && NewOf(es + [e]) == NewOf(es) + NewLine(e)
  {
    assert (es + [e])[..|es|] == es;
  }

  // ----- the edits

  /** An edit's numbers are those of its lines; an added line's old number is not used. */
  ghost predicate NumberedAt(es: seq<Edit>, i: nat)
    requires i < |es|
  {
    && es[i].newLine == |NewOf(es[..i])| + 1
    && (es[i].kind != '+' ==> es[i].oldLine == |OldOf(es[..i])| + 1)
    && (es[i].kind == ' ' || es[i].kind == '-' || es[i].kind == '+')
  }

  ghost predicate Numbered(es: seq<Edit>) {
    forall i {:trigger NumberedAt(es, i)} :: 0 <= i < |es| ==> NumberedAt(es, i)
  }

  lemma NumberedNext(es: seq<Edit>, e: Edit)
    requires Numbered(es)
    requires e.newLine == |NewOf(es)| + 1 && (e.kind != '+' ==> e.oldLine == |OldOf(es)| + 1)
    requires e.kind == ' ' || e.kind == '-' || e.kind == '+'
    ensures Numbered(es + [e])
  {
    forall i | 0 <= i <= |es| ensures NumberedAt(es + [e], i) {
      if i < |es| {
        assert NumberedAt(es, i);
        assert (es + [e])[..i] == es[..i];
      } else {
        assert (es + [e])[..i] == es;
      }
    }
  }

  /** The first edit is on the old side, and one of the first two on the new. */
  predicate StartsBoth(es: seq<Edit>) {
    es != [] && es[0].kind != '+' && (es[0].kind == '-' ==> |es| > 1 && es[1].kind != '-')
  }

  /** What the edits of two texts are. */
  ghost predicate EditsBetween(oldLines: seq<string>, newLines: seq<string>, es: seq<Edit>) {
    OldOf(es) == oldLines && NewOf(es) == newLines && Numbered(es) && (es != [] ==> StartsBoth(es))
  }

  lemma EditsNext(oldLines: seq<string>, newLines: seq<string>, oi: nat, ni: nat, es: seq<Edit>, e: Edit)
    requires oi <= |oldLines| && ni <= |newLines| && EditsBetween(oldLines[..oi], newLines[..ni], es)
    requires e.newLine == ni + 1 && (e.kind != '+' ==> e.oldLine == oi + 1)
    requires e.kind == ' ' || e.kind == '-' || e.kind == '+'
    requires e.kind != '+' ==> oi < |oldLines| && e.text == oldLines[oi]
    requires e.kind != '-' ==> ni < |newLines| && e.text == newLines[ni]
    ensures OldOf(es + [e]) == oldLines[..if e.kind != '+' then oi + 1 else oi]
    ensures NewOf(es + [e]) == newLines[..if e.kind != '-' then ni + 1 else ni]
    ensures Numbered(es + [e])
    ensures es != [] ==> StartsBoth(es + [e])
    ensures es == [] && e.kind == ' ' ==> StartsBoth(es + [e])
  {
    OneMore(es, e);
    NumberedNext(es, e);
    OneMoreLine(oldLines, oi);
    OneMoreLine(newLines, ni);
    StartsGrow(es, e);
  }

  lemma OneMoreLine(ls: seq<string>, i: nat)
    ensures i < |ls| ==> ls[..i] + [ls[i]] == ls[..i + 1]
  {
  }

  lemma StartsGrow(es: seq<Edit>, e: Edit)
    ensures StartsBoth(es) ==> StartsBoth(es + [e])
    ensures es == [] && e.kind == ' ' ==> StartsBoth(es + [e])
  {
    assert es != [] ==> (es + [e])[0] == es[0];
  }

  lemma PairNext(oldLines: seq<string>, newLines: seq<string>, oi: nat, ni: nat, es: seq<Edit>, d: Edit, a: Edit)
    requires oi < |oldLines| && ni < |newLines| && EditsBetween(oldLines[..oi], newLines[..ni], es)
    requires d == Edit('-', oi + 1, ni + 1, oldLines[oi]) && a == Edit('+', oi + 1, ni + 1, newLines[ni])
    ensures EditsBetween(oldLines[..oi + 1], newLines[..ni + 1], es + [d] + [a])
  {
    EditsNext(oldLines, newLines, oi, ni, es, d);
    OneMore(es + [d], a);
    NumberedNext(es + [d], a);
    assert newLines[..ni] + [newLines[ni]] == newLines[..ni + 1];
    assert es == [] ==> es + [d] + [a] == [d, a];
    assert es != [] ==> (es + [d] + [a])[0] == es[0];
  }

  /** Lines are paired by index; where they differ the old one goes and the new one comes. */
  method BuildEdits(oldLines: seq<string>, newLines: seq<string>) returns (edits: seq<Edit>)
    requires oldLines != [] && newLines != []
    ensures EditsBetween(oldLines, newLines, edits) && edits != []
    ensures oldLines == newLines ==> forall i :: 0 <= i < |edits| ==> edits[i].kind == ' '
  {
    edits := [];
    var oi: nat, ni: nat := 0, 0;
    while oi < |oldLines| || ni < |newLines|
      invariant oi <= |oldLines| && ni <= |newLines|
      invariant EditsBetween(oldLines[..oi], newLines[..ni], edits) && (oi > 0 || ni > 0 ==> edits != [])
      invariant (oi < ni ==> oi == |oldLines|) && (ni < oi ==> ni == |newLines|)
      invariant oldLines == newLines ==> forall i :: 0 <= i < |edits| ==> edits[i].kind == ' '
      decreases |oldLines| - oi + |newLines| - ni
    {
      if oi >= |oldLines| {
        var e := Edit('+', oi + 1, ni + 1, newLines[ni]);
        EditsNext(oldLines, newLines, oi, ni, edits, e);
        edits, ni := edits + [e], ni + 1;
      } else if ni >= |newLines| {
        var e := Edit('-', oi + 1, ni + 1, oldLines[oi]);
        EditsNext(oldLines, newLines, oi, ni, edits, e);
        edits, oi := edits + [e], oi + 1;
      } else if oldLines[oi] == newLines[ni] {
        var e := Edit(' ', oi + 1, ni + 1, oldLines[oi]);
        EditsNext(oldLines, newLines, oi, ni, edits, e);
        edits, oi, ni := edits + [e], oi + 1, ni + 1;
      } else {
        var d, a := Edit('-', oi + 1, ni + 1, oldLines[oi]), Edit('+', oi + 1, ni + 1, newLines[ni]);
        PairNext(oldLines, newLines, oi, ni, edits, d, a);
        edits := edits + [d];
        edits, oi, ni := edits + [a], oi + 1, ni + 1;
      }
    }
    assert oldLines[..|oldLines|] == oldLines && newLines[..|newLines|] == newLines;
  }

  // ----- the hunks

  predicate IsChange(es: seq<Edit>, c: int) {
    0 <= c < |es| && es[c].kind != ' '
  }

  /** The changed edits, in order. */
  ghost predicate ListsChanged(es: seq<Edit>, changed: seq<nat>, n: nat) {
    && n <= |es|
    && (forall k :: 0 <= k < |changed| ==> changed[k] < n && IsChange(es, changed[k]))
    && (forall j, k :: 0 <= j < k < |changed| ==> changed[j] < changed[k])
    && (forall i {:trigger i in changed} :: 0 <= i < n && IsChange(es, i) ==> i in changed)
  }

  method ChangedEdits(edits: seq<Edit>) returns (changed: seq<nat>)
    ensures ListsChanged(edits, changed, |edits|)
  {
    changed := [];
    for i := 0 to |edits|
      invariant ListsChanged(edits, changed, i)
    {
      if edits[i].kind != ' ' {
        changed := changed + [i];
      }
    }
  }

  /** A run of edits, both ends included. */
  datatype Hunk = Hunk(start: int, end: int)

  predicate InHunk(h: Hunk, i: int) {
    h.start <= i <= h.end
  }

  /** The context before the first change and after the last, as far as there is any. */
  function StartFor(c: int): int {
    if c < CTX then 0 else c - CTX
  }

  function EndFor(c: int, n: int): int {
    if c + CTX < n then c + CTX else n - 1
  }

  /** Each hunk reaches from three edits before a change to three after one. */
  ghost predicate HunkFits(es: seq<Edit>, h: Hunk) {
    && 0 <= h.start <= h.end < |es| && (es[h.start].kind == ' ' || (h.start == 0 && es[0].kind != '+'))
    && (exists c {:trigger IsChange(es, c)} :: IsChange(es, c) && h.start == StartFor(c))
    && (exists c {:trigger IsChange(es, c)} :: IsChange(es, c) && h.end == EndFor(c, |es|))
  }

  predicate Apart(h: Hunk, g: Hunk) {
    h.end < g.start
  }

  ghost predicate HunksFit(es: seq<Edit>, hs: seq<Hunk>) {
    && (forall j {:trigger HunkFits(es, hs[j])} :: 0 <= j < |hs| ==> HunkFits(es, hs[j]))
    && (forall i, j {:trigger Apart(hs[i], hs[j])} :: 0 <= i < j < |hs| ==> Apart(hs[i], hs[j]))
  }

  ghost predicate Covered(hs: seq<Hunk>, i: int) {
    exists j {:trigger InHunk(hs[j], i)} :: 0 <= j < |hs| && InHunk(hs[j], i)
  }

  predicate IsNear(c: int, i: int) {
    c - CTX <= i <= c + CTX
  }

  ghost predicate NearChange(es: seq<Edit>, i: int) {
    exists c {:trigger IsChange(es, c)} :: IsChange(es, c) && IsNear(c, i)
  }

  /** Hunks in order that do not overlap; they hold the edits within three of a change and no others. */
  ghost predicate CoversChanges(es: seq<Edit>, hs: seq<Hunk>) {
    HunksFit(es, hs) && forall i {:trigger Covered(hs, i)} :: 0 <= i < |es| ==> (Covered(hs, i) <==> NearChange(es, i))
  }

  lemma ChangeCovered(es: seq<Edit>, hs: seq<Hunk>, i: nat)
    requires CoversChanges(es, hs) && IsChange(es, i)
    ensures Covered(hs, i)
  {
    assert IsNear(i, i);
  }

  /** Near one of the first k changes. */
  ghost predicate NearOne(changed: seq<nat>, k: nat, i: int) {
    exists j {:trigger changed[j]} :: 0 <= j < k && j < |changed| && IsNear(changed[j], i)
  }

  /** The hunks so far and the open one, over the first k changes. */
  ghost predicate Grouped(es: seq<Edit>, changed: seq<nat>, k: nat, hs: seq<Hunk>, cur: Hunk) {
    && 0 < k <= |changed| && HunksFit(es, hs + [cur])
    && cur.start <= StartFor(changed[k - 1]) && cur.end == EndFor(changed[k - 1], |es|)
    && (forall i {:trigger NearOne(changed, k, i)} :: 0 <= i < |es| ==> (Covered(hs + [cur], i) <==> NearOne(changed, k, i)))
  }

  lemma CoveredMore(hs: seq<Hunk>, h: Hunk, i: int)
    ensures Covered(hs + [h], i) <==> Covered(hs, i) || InHunk(h, i)
  {
    if Covered(hs, i) {
      var j :| 0 <= j < |hs| && InHunk(hs[j], i);
      assert InHunk((hs + [h])[j], i);
    }
    if InHunk(h, i) {
      assert InHunk((hs + [h])[|hs|], i);
    }
  }

  lemma NearOneMore(changed: seq<nat>, k: nat, i: int)
    requires k < |changed|
    ensures NearOne(changed, k + 1, i) <==> NearOne(changed, k, i) || IsNear(changed[k], i)
  {
  }

  lemma GroupStarts(es: seq<Edit>, changed: seq<nat>)
    requires ListsChanged(es, changed, |es|) && changed != [] && es != [] && es[0].kind != '+'
    ensures Grouped(es, changed, 1, [], Hunk(StartFor(changed[0]), EndFor(changed[0], |es|)))
  {
    var cur := Hunk(StartFor(changed[0]), EndFor(changed[0], |es|));
    assert [] + [cur] == [cur] && [cur][0] == cur;
    assert IsChange(es, changed[0]);
    assert IsChange(es, cur.start) ==> cur.start in changed;
    forall i | 0 <= i < |es| ensures Covered([] + [cur], i) <==> NearOne(changed, 1, i) {
      CoveredMore([], cur, i);
      NearOneMore(changed, 0, i);
    }
  }

  /** Nothing between two neighbouring changes is a change. */
  lemma NotAChange(es: seq<Edit>, changed: seq<nat>, k: nat, i: nat)
    requires ListsChanged(es, changed, |es|) && 0 < k < |changed| && changed[k - 1] < i < changed[k]
    ensures es[i].kind == ' '
  {
    assert IsChange(es, i) ==> i in changed;
  }

  lemma HunksFitNext(es: seq<Edit>, hs: seq<Hunk>, cur: Hunk, next: Hunk)
    requires HunksFit(es, hs + [cur]) && HunkFits(es, next) && next.start == cur.start
    ensures HunksFit(es, hs + [next])
  {
    var all, all' := hs + [cur], hs + [next];
    forall j | 0 <= j < |all'| ensures HunkFits(es, all'[j]) {
      assert HunkFits(es, all[j]);
    }
    forall i, j | 0 <= i < j < |all'| ensures Apart(all'[i], all'[j]) {
      assert Apart(all[i], all[j]);
    }
  }

  lemma HunksFitMore(es: seq<Edit>, hs: seq<Hunk>, cur: Hunk, next: Hunk)
    requires HunksFit(es, hs + [cur]) && HunkFits(es, next) && Apart(cur, next)
    ensures HunksFit(es, hs + [cur] + [next])
  {
    var all, all' := hs + [cur], hs + [cur] + [next];
    assert HunkFits(es, all[|hs|]);
    forall j | 0 <= j < |all'| ensures HunkFits(es, all'[j]) {
      assert j < |all| ==> HunkFits(es, all[j]);
    }
    forall i, j | 0 <= i < j < |all'| ensures Apart(all'[i], all'[j]) {
      assert i < |hs| ==> Apart(all[i], all[|hs|]);
      assert j < |all| ==> Apart(all[i], all[j]);
    }
  }

  /** A change close to the open hunk joins it. */
  lemma GroupJoins(es: seq<Edit>, changed: seq<nat>, k: nat, hs: seq<Hunk>, cur: Hunk)
    requires ListsChanged(es, changed, |es|) && Grouped(es, changed, k, hs, cur) && k < |changed|
    requires changed[k] - CTX <= cur.end
    ensures Grouped(es, changed, k + 1, hs, Hunk(cur.start, EndFor(changed[k], |es|)))
  {
    var cur' := Hunk(cur.start, EndFor(changed[k], |es|));
    assert HunkFits(es, (hs + [cur])[|hs|]) && IsChange(es, changed[k]);
    HunksFitNext(es, hs, cur, cur');
    forall i | 0 <= i < |es| ensures Covered(hs + [cur'], i) <==> NearOne(changed, k + 1, i) {
      assert NearOne(changed, k, i) <==> Covered(hs + [cur], i);
      CoveredMore(hs, cur, i);
      CoveredMore(hs, cur', i);
      NearOneMore(changed, k, i);
    }
  }

  /** A change further on opens the next hunk. */
  lemma GroupOpens(es: seq<Edit>, changed: seq<nat>, k: nat, hs: seq<Hunk>, cur: Hunk)
    requires ListsChanged(es, changed, |es|) && Grouped(es, changed, k, hs, cur) && k < |changed|
    requires changed[k] - CTX > cur.end
    ensures Grouped(es, changed, k + 1, hs + [cur], Hunk(StartFor(changed[k]), EndFor(changed[k], |es|)))
  {
    var next := Hunk(StartFor(changed[k]), EndFor(changed[k], |es|));
    assert HunkFits(es, (hs + [cur])[|hs|]) && IsChange(es, changed[k]);
    NotAChange(es, changed, k, next.start);
    HunksFitMore(es, hs, cur, next);
    forall i | 0 <= i < |es| ensures Covered(hs + [cur] + [next], i) <==> NearOne(changed, k + 1, i) {
      assert NearOne(changed, k, i) <==> Covered(hs + [cur], i);
      CoveredMore(hs + [cur], next, i);
      NearOneMore(changed, k, i);
    }
  }

  lemma NearListed(es: seq<Edit>, changed: seq<nat>, i: int)
    requires ListsChanged(es, changed, |es|)
    ensures NearOne(changed, |changed|, i) <==> NearChange(es, i)
  {
    if NearChange(es, i) {
      var c :| IsChange(es, c) && IsNear(c, i);
      assert c in changed;
    }
  }

  method GroupHunks(edits: seq<Edit>, changed: seq<nat>) returns (hunks: seq<Hunk>)
    requires ListsChanged(edits, changed, |edits|) && changed != [] && edits != [] && edits[0].kind != '+'
    ensures CoversChanges(edits, hunks) && hunks != []
  {
    hunks := [];
    var hunkStart, hunkEnd := StartFor(changed[0]), EndFor(changed[0], |edits|);
    GroupStarts(edits, changed);
    for k := 1 to |changed|
      invariant Grouped(edits, changed, k, hunks, Hunk(hunkStart, hunkEnd))
    {
      var ci := changed[k];
      if ci - CTX <= hunkEnd {
        GroupJoins(edits, changed, k, hunks, Hunk(hunkStart, hunkEnd));
        hunkEnd := EndFor(ci, |edits|);
      } else {
        GroupOpens(edits, changed, k, hunks, Hunk(hunkStart, hunkEnd));
        hunks := hunks + [Hunk(hunkStart, hunkEnd)];
        hunkStart, hunkEnd := StartFor(ci), EndFor(ci, |edits|);
      }
    }
    hunks := hunks + [Hunk(hunkStart, hunkEnd)];
    forall i | 0 <= i < |edits| ensures Covered(hunks, i) <==> NearChange(edits, i) {
      assert NearOne(changed, |changed|, i) <==> Covered(hunks, i);
      NearListed(edits, changed, i);
    }
  }

  // ----- what is printed

  datatype Printed = Printed(oldStart: int, oldCount: int, newStart: int, newCount: int, lines: seq<Edit>)

  function LinesOf(es: seq<Edit>, h: Hunk): seq<Edit>
    requires 0 <= h.start <= h.end < |es|
  {
    es[h.start..h.end + 1]
  }

  /** The header gives where the hunk's lines start on either side and how many there are. */
  ghost predicate PrintsHunk(es: seq<Edit>, h: Hunk, p: Printed) {
    && 0 <= h.start <= h.end < |es| && p.lines == LinesOf(es, h)
    && p.oldStart == |OldOf(es[..h.start])| + 1 && p.oldCount == |OldOf(p.lines)|
    && p.newStart == |NewOf(es[..h.start])| + 1 && p.newCount == |NewOf(p.lines)|
  }

  method PrintHunk(edits: seq<Edit>, h: Hunk) returns (p: Printed)
    requires Numbered(edits) && HunkFits(edits, h)
    ensures PrintsHunk(edits, h, p)
  {
    var oldCount, newCount, oldStart, newStart := 0, 0, 0, 0;
    var lines := edits[h.start..h.end + 1];
    for i := 0 to |lines|
      invariant oldCount == |OldOf(lines[..i])| && newCount == |NewOf(lines[..i])|
      invariant oldStart == 0 || oldStart == lines[0].oldLine
      invariant newStart == 0 || newStart == lines[0].newLine
    {
      OneMore(lines[..i], lines[i]);
      assert lines[..i] + [lines[i]] == lines[..i + 1];
      if lines[i].kind != '+' {
        oldCount := oldCount + 1;
        if i == 0 {
          oldStart := lines[i].oldLine;
        }
      }
      if lines[i].kind != '-' {
        newCount := newCount + 1;
        if i == 0 {
          newStart := lines[i].newLine;
        }
      }
    }
    assert lines[..|lines|] == lines;
    if oldStart == 0 {
      oldStart := edits[h.start].oldLine;
    }
    if newStart == 0 {
      newStart := edits[h.start].newLine;
    }
    assert NumberedAt(edits, h.start);
    p := Printed(oldStart, oldCount, newStart, newCount, lines);
  }

  ghost predicate PrintsAll(es: seq<Edit>, hs: seq<Hunk>, ps: seq<Printed>) {
    |ps| == |hs| && forall j {:trigger PrintsHunk(es, hs[j], ps[j])} :: 0 <= j < |hs| ==> PrintsHunk(es, hs[j], ps[j])
  }

  // ----- applying the hunks

  /** A hunk's old lines are where its header says. */
  predicate Matches(oldLines: seq<string>, p: Printed) {
    && p.oldStart >= 1 && p.oldCount >= 0 && p.oldStart - 1 + p.oldCount <= |oldLines|
    && oldLines[p.oldStart - 1..p.oldStart - 1 + p.oldCount] == OldOf(p.lines)
  }

  /** The old lines from a position on with the hunks applied; nothing if one does not fit. */
  function Patch(oldLines: seq<string>, ps: seq<Printed>, at: int): (r: seq<string>)
    requires 0 <= at <= |oldLines|
  {
    if ps == [] then oldLines[at..]
    else if at <= ps[0].oldStart - 1 && Matches(oldLines, ps[0]) then
      oldLines[at..ps[0].oldStart - 1] + NewOf(ps[0].lines) + Patch(oldLines, ps[1..], ps[0].oldStart - 1 + ps[0].oldCount)
    else []
  }

  lemma {:induction false} Unchanged(es: seq<Edit>)
    requires forall i :: 0 <= i < |es| ==> es[i].kind == ' '
    ensures OldOf(es) == NewOf(es)
  {
    if es != [] {
      Unchanged(es[..|es| - 1]);
    }
  }

  /** Part of the old lines, found by the edits. */
  lemma OldSlice(es: seq<Edit>, a: nat, b: nat)
    requires a <= b <= |es|
    ensures |OldOf(es[..a])| <= |OldOf(es[..b])| <= |OldOf(es)|
    ensures OldOf(es)[|OldOf(es[..a])|..|OldOf(es[..b])|] == OldOf(es[a..b])
  {
    SidesJoin(es[..a], es[a..b]);
    SidesJoin(es[..b], es[b..]);
    assert es[..a] + es[a..b] == es[..b] && es[..b] + es[b..] == es;
  }

  lemma NewInTwo(es: seq<Edit>, a: nat, b: nat)
    requires a <= b <= |es|
    ensures NewOf(es[a..]) == NewOf(es[a..b]) + NewOf(es[b..])
  {
    SidesJoin(es[a..b], es[b..]);
    assert es[a..b] + es[b..] == es[a..];
  }

  lemma NewInThree(es: seq<Edit>, a: nat, b: nat, c: nat)
    requires a <= b <= c <= |es|
    ensures NewOf(es[a..]) == NewOf(es[a..b]) + NewOf(es[b..c]) + NewOf(es[c..])
  {
    NewInTwo(es, a, b);
    NewInTwo(es, b, c);
    Text.Assoc(NewOf(es[a..b]), NewOf(es[b..c]), NewOf(es[c..]));
  }

  /** A printed hunk's old lines are where it says, and they end where the hunk does. */
  lemma HunkMatches(es: seq<Edit>, h: Hunk, p: Printed)
    requires PrintsHunk(es, h, p)
    ensures Matches(OldOf(es), p) && p.oldStart - 1 + p.oldCount == |OldOf(es[..h.end + 1])|
  {
    OldSlice(es, h.start, h.end + 1);
    SidesJoin(es[..h.start], p.lines);
    LinesAfter(es, h);
  }

  lemma LinesAfter(es: seq<Edit>, h: Hunk)
    requires 0 <= h.start <= h.end < |es|
    ensures es[..h.start] + LinesOf(es, h) == es[..h.end + 1]
  {
  }

  lemma PatchStep(oldLines: seq<string>, p: Printed, rest: seq<Printed>, a: int, b: int, c: int, gap: seq<string>,
                  tail: seq<string>, whole: seq<string>)
    requires 0 <= a <= b && b == p.oldStart - 1 && c == b + p.oldCount && Matches(oldLines, p)
    requires gap == oldLines[a..b] && tail == Patch(oldLines, rest, c)
    requires whole == gap + NewOf(p.lines) + tail
    ensures Patch(oldLines, [p] + rest, a) == whole
  {
    assert ([p] + rest)[0] == p && ([p] + rest)[1..] == rest;
  }

  /** Between the hunks nothing changes, and within them the new lines are written. */
  lemma {:induction false} PatchFrom(es: seq<Edit>, hs: seq<Hunk>, ps: seq<Printed>, j: nat, from: nat)
    requires CoversChanges(es, hs) && PrintsAll(es, hs, ps) && j <= |hs| && from <= |es|
    requires from == if j == 0 then 0 else hs[j - 1].end + 1
    ensures |OldOf(es[..from])| <= |OldOf(es)|
    ensures Patch(OldOf(es), ps[j..], |OldOf(es[..from])|) == NewOf(es[from..])
    decreases |hs| - j
  {
    OldSlice(es, from, |es|);
    assert es[..|es|] == es;
    if j == |hs| {
      GapUnchanged(es, hs, j, from, |es|);
      assert es[from..|es|] == es[from..];
    } else {
      PatchNext(es, hs, ps, j, from);
    }
  }

  lemma {:induction false} PatchNext(es: seq<Edit>, hs: seq<Hunk>, ps: seq<Printed>, j: nat, from: nat)
    requires CoversChanges(es, hs) && PrintsAll(es, hs, ps) && j < |hs| && from <= |es|
    requires from == if j == 0 then 0 else hs[j - 1].end + 1
    ensures |OldOf(es[..from])| <= |OldOf(es)|
    ensures Patch(OldOf(es), ps[j..], |OldOf(es[..from])|) == NewOf(es[from..])
    decreases |hs| - j, 0
  {
    assert PrintsHunk(es, hs[j], ps[j]);
    GapBefore(es, hs, j, from);
    PatchFrom(es, hs, ps, j + 1, hs[j].end + 1);
    assert [ps[j]] + ps[j + 1..] == ps[j..];
    PatchOver(es, hs[j], ps[j], ps[j + 1..], from);
  }

  /** Over the lines kept before a hunk, and over the hunk. */
  lemma PatchOver(es: seq<Edit>, h: Hunk, p: Printed, rest: seq<Printed>, from: nat)
    requires PrintsHunk(es, h, p) && from <= h.start
    requires |OldOf(es[..from])| <= |OldOf(es[..h.start])| <= |OldOf(es)| && |OldOf(es[..h.end + 1])| <= |OldOf(es)|
    requires OldOf(es)[|OldOf(es[..from])|..|OldOf(es[..h.start])|] == NewOf(es[from..h.start])
    requires Patch(OldOf(es), rest, |OldOf(es[..h.end + 1])|) == NewOf(es[h.end + 1..])
    ensures Patch(OldOf(es), [p] + rest, |OldOf(es[..from])|) == NewOf(es[from..])
  {
    HunkMatches(es, h, p);
    NewInThree(es, from, h.start, h.end + 1);
    PatchStep(OldOf(es), p, rest, |OldOf(es[..from])|, |OldOf(es[..h.start])|, |OldOf(es[..h.end + 1])|,
              NewOf(es[from..h.start]), NewOf(es[h.end + 1..]), NewOf(es[from..]));
  }

  lemma GapBefore(es: seq<Edit>, hs: seq<Hunk>, j: nat, from: nat)
    requires CoversChanges(es, hs) && j < |hs| && from <= |es|
    requires from == if j == 0 then 0 else hs[j - 1].end + 1
    ensures from <= hs[j].start <= |es| && |OldOf(es[..from])| <= |OldOf(es[..hs[j].start])| <= |OldOf(es)|
    ensures OldOf(es)[|OldOf(es[..from])|..|OldOf(es[..hs[j].start])|] == NewOf(es[from..hs[j].start])
  {
    assert HunkFits(es, hs[j]);
    assert j > 0 ==> Apart(hs[j - 1], hs[j]);
    GapUnchanged(es, hs, j, from, hs[j].start);
    OldSlice(es, from, hs[j].start);
  }

  /** A place between two neighbouring hunks is in none. */
  lemma BetweenHunks(es: seq<Edit>, hs: seq<Hunk>, j: nat, m: nat, at: nat)
    requires HunksFit(es, hs) && j <= |hs| && m < |hs|
    requires j > 0 ==> hs[j - 1].end < at
    requires j < |hs| ==> at < hs[j].start
    ensures !InHunk(hs[m], at)
  {
    if m < j {
      assert m < j - 1 ==> Apart(hs[m], hs[j - 1]);
      assert HunkFits(es, hs[j - 1]);
    } else {
      assert m > j ==> Apart(hs[j], hs[m]);
      assert HunkFits(es, hs[j]);
    }
  }

  lemma GapUnchanged(es: seq<Edit>, hs: seq<Hunk>, j: nat, from: nat, to: nat)
    requires CoversChanges(es, hs) && j <= |hs| && from <= to <= |es|
    requires from == if j == 0 then 0 else hs[j - 1].end + 1
    requires to == if j == |hs| then |es| else hs[j].start
    ensures OldOf(es[from..to]) == NewOf(es[from..to])
  {
    forall i | 0 <= i < |es[from..to]| ensures es[from..to][i].kind == ' ' {
      forall m | 0 <= m < |hs| ensures !InHunk(hs[m], from + i) {
        BetweenHunks(es, hs, j, m, from + i);
      }
      if IsChange(es, from + i) {
        ChangeCovered(es, hs, from + i);
      }
    }
    Unchanged(es[from..to]);
  }

  /** Applying the printed hunks to the old lines gives the new lines. */
  lemma PatchGivesNew(oldLines: seq<string>, newLines: seq<string>, es: seq<Edit>, hs: seq<Hunk>, ps: seq<Printed>)
    requires EditsBetween(oldLines, newLines, es) && CoversChanges(es, hs) && PrintsAll(es, hs, ps)
    ensures Patch(oldLines, ps, 0) == newLines
  {
    PatchFrom(es, hs, ps, 0, 0);
    assert ps[0..] == ps && es[..0] == [] && es[0..] == es;
  }

  /** Every header counts at least one line on each side, so its starts are line
      numbers and never the number before a gap. */
  lemma HeadersCountLines(oldLines: seq<string>, newLines: seq<string>, es: seq<Edit>, h: Hunk, p: Printed)
    requires EditsBetween(oldLines, newLines, es) && es != [] && HunkFits(es, h) && PrintsHunk(es, h, p)
    ensures p.oldCount >= 1 && p.newCount >= 1
  {
    assert p.lines[0] == es[h.start];
    FirstCounts(p.lines);
    var c :| IsChange(es, c) && h.end == EndFor(c, |es|);
    if es[h.start].kind == '-' {
      assert |p.lines| > 1 && p.lines[1] == es[1];
    }
  }

  lemma FirstCounts(es: seq<Edit>)
    requires es != []
    ensures es[0].kind != '+' ==> |OldOf(es)| >= 1
    ensures es[0].kind != '-' || (|es| > 1 && es[1].kind != '-') ==> |NewOf(es)| >= 1
  {
    SidesJoin([es[0]], es[1..]);
    assert [es[0]] + es[1..] == es;
    OneMore([], es[0]);
    assert [] + [es[0]] == [es[0]];
    if |es| > 1 {
      SidesJoin([es[1]], es[2..]);
      assert [es[1]] + es[2..] == es[1..];
      OneMore([], es[1]);
      assert [] + [es[1]] == [es[1]];
    }
  }

  // ----- the whole diff

  /** The lines of a text, which its line breaks separate. */
  function Lines(s: string): (r: seq<string>)
    ensures r != []
  {
    if s == [] then [""]
    else
      var front, c := Lines(s[..|s| - 1]), s[|s| - 1];
      if c == '\n' then front + [""] else front[..|front| - 1] + [front[|front| - 1] + [c]]
  }

  function Unlines(ls: seq<string>): string
    requires ls != []
  {
    if |ls| == 1 then ls[0] else Unlines(ls[..|ls| - 1]) + "\n" + ls[|ls| - 1]
  }

  /** A text is its lines with line breaks between them. */
  lemma {:induction false} UnlinesOfLines(s: string)
    ensures Unlines(Lines(s)) == s
  {
    if s != [] {
      UnlinesOfLines(s[..|s| - 1]);
      var front, c := Lines(s[..|s| - 1]), s[|s| - 1];
      assert s == s[..|s| - 1] + [c];
      if c == '\n' {
        assert (front + [""])[..|front|] == front;
      } else {
        GrowLast(front, c);
      }
    }
  }

  lemma GrowLast(ls: seq<string>, c: char)
    requires ls != []
    ensures Unlines(ls[..|ls| - 1] + [ls[|ls| - 1] + [c]]) == Unlines(ls) + [c]
  {
    var front, last := ls[..|ls| - 1], ls[|ls| - 1];
    assert (front + [last + [c]])[..|front|] == front;
    if |ls| > 1 {
      assert Unlines(front) + "\n" + (last + [c]) == Unlines(front) + "\n" + last + [c];
    }
  }

  /** The hunks printed for two texts: none exactly when the texts are equal,
      and otherwise such that applying them to the old text gives the new. They
      hold the edits within three of a change and no others. */
  method PrintUnifiedDiff(oldText: string, newText: string)
    returns (printed: seq<Printed>, ghost edits: seq<Edit>, ghost hunks: seq<Hunk>)
    ensures EditsBetween(Lines(oldText), Lines(newText), edits)
    ensures CoversChanges(edits, hunks) && PrintsAll(edits, hunks, printed)
    ensures printed == [] <==> oldText == newText
    ensures Unlines(Lines(newText)) == newText && Patch(Lines(oldText), printed, 0) == Lines(newText)
    ensures forall j {:trigger InPlace(Lines(oldText), Lines(newText), printed[j])} :: 0 <= j < |printed| ==>
      InPlace(Lines(oldText), Lines(newText), printed[j])
    ensures forall i, j {:trigger EndsBefore(printed[i], printed[j])} :: 0 <= i < j < |printed| ==>
      EndsBefore(printed[i], printed[j])
  {
    var oldLines, newLines := Lines(oldText), Lines(newText);
    var es := BuildEdits(oldLines, newLines);
    edits, hunks := es, [];
    var changed := ChangedEdits(es);
    UnlinesOfLines(oldText);
    UnlinesOfLines(newText);
    if |changed| == 0 {
      NoneChanged(es, changed);
      return [], edits, hunks;
    }
    assert IsChange(es, changed[0]);
    var grouped := GroupHunks(es, changed);
    hunks := grouped;
    printed := PrintHunks(es, grouped);
    PatchGivesNew(oldLines, newLines, edits, hunks, printed);
    HunksInPlace(oldLines, newLines, edits, hunks, printed);
  }

  lemma NoneChanged(es: seq<Edit>, changed: seq<nat>)
    requires ListsChanged(es, changed, |es|) && changed == []
    ensures OldOf(es) == NewOf(es) && CoversChanges(es, [])
  {
    forall i | 0 <= i < |es| ensures es[i].kind == ' ' {
      assert IsChange(es, i) ==> i in changed;
    }
    Unchanged(es);
  }

  method PrintHunks(edits: seq<Edit>, hunks: seq<Hunk>) returns (printed: seq<Printed>)
    requires Numbered(edits) && HunksFit(edits, hunks)
    ensures PrintsAll(edits, hunks, printed)
  {
    printed := [];
    for j := 0 to |hunks|
      invariant |printed| == j
      invariant forall m {:trigger PrintsHunk(edits, hunks[m], printed[m])} :: 0 <= m < j ==>
        PrintsHunk(edits, hunks[m], printed[m])
    {
      assert HunkFits(edits, hunks[j]);
      var p := PrintHunk(edits, hunks[j]);
      assert forall m {:trigger (printed + [p])[m]} :: 0 <= m < j ==>
        PrintsHunk(edits, hunks[m], printed[m]) && (printed + [p])[m] == printed[m];
      printed := printed + [p];
    }
  }

  /** On both sides the hunk's lines are where its header says, and there is at least one. */
  ghost predicate InPlace(oldLines: seq<string>, newLines: seq<string>, p: Printed) {
    && Matches(oldLines, p) && p.oldCount >= 1 && p.newCount >= 1
    && p.newStart >= 1 && p.newStart - 1 + p.newCount <= |newLines|
    && newLines[p.newStart - 1..p.newStart - 1 + p.newCount] == NewOf(p.lines)
  }

  predicate EndsBefore(p: Printed, q: Printed) {
    p.oldStart + p.oldCount <= q.oldStart
  }

  /** Part of the new lines, found by the edits. */
  lemma NewSlice(es: seq<Edit>, a: nat, b: nat)
    requires a <= b <= |es|
    ensures |NewOf(es[..a])| <= |NewOf(es[..b])| <= |NewOf(es)|
    ensures NewOf(es)[|NewOf(es[..a])|..|NewOf(es[..b])|] == NewOf(es[a..b])
  {
    SidesJoin(es[..a], es[a..b]);
    SidesJoin(es[..b], es[b..]);
    assert es[..a] + es[a..b] == es[..b] && es[..b] + es[b..] == es;
  }

  lemma NewSideMatches(es: seq<Edit>, h: Hunk, p: Printed)
    requires PrintsHunk(es, h, p)
    ensures p.newStart >= 1 && p.newStart - 1 + p.newCount == |NewOf(es[..h.end + 1])| <= |NewOf(es)|
    ensures NewOf(es)[p.newStart - 1..p.newStart - 1 + p.newCount] == NewOf(p.lines)
  {
    NewSlice(es, h.start, h.end + 1);
    SidesJoin(es[..h.start], p.lines);
    LinesAfter(es, h);
  }

  lemma HunkInPlace(oldLines: seq<string>, newLines: seq<string>, es: seq<Edit>, h: Hunk, p: Printed)
    requires EditsBetween(oldLines, newLines, es) && HunkFits(es, h) && PrintsHunk(es, h, p)
    ensures InPlace(oldLines, newLines, p)
  {
    HunkMatches(es, h, p);
    NewSideMatches(es, h, p);
    HeadersCountLines(oldLines, newLines, es, h, p);
  }

  lemma HunksInPlace(oldLines: seq<string>, newLines: seq<string>, es: seq<Edit>, hs: seq<Hunk>, ps: seq<Printed>)
    requires EditsBetween(oldLines, newLines, es) && CoversChanges(es, hs) && PrintsAll(es, hs, ps)
    ensures forall j {:trigger InPlace(oldLines, newLines, ps[j])} :: 0 <= j < |ps| ==>
      InPlace(oldLines, newLines, ps[j])
    ensures forall i, j {:trigger EndsBefore(ps[i], ps[j])} :: 0 <= i < j < |ps| ==> EndsBefore(ps[i], ps[j])
  {
    forall j | 0 <= j < |ps| ensures InPlace(oldLines, newLines, ps[j]) {
      assert PrintsHunk(es, hs[j], ps[j]) && HunkFits(es, hs[j]);
      HunkInPlace(oldLines, newLines, es, hs[j], ps[j]);
    }
    forall i, j | 0 <= i < j < |ps| ensures EndsBefore(ps[i], ps[j]) {
      assert PrintsHunk(es, hs[i], ps[i]) && PrintsHunk(es, hs[j], ps[j]) && Apart(hs[i], hs[j]);
      HunksInOrder(es, hs[i], ps[i], hs[j], ps[j]);
    }
  }

  lemma HunksInOrder(es: seq<Edit>, h: Hunk, p: Printed, g: Hunk, q: Printed)
    requires PrintsHunk(es, h, p) && PrintsHunk(es, g, q) && Apart(h, g)
    ensures EndsBefore(p, q)
  {
    HunkMatches(es, h, p);
    OldMonotone(es, h.end + 1, g.start);
  }

  lemma OldMonotone(es: seq<Edit>, a: nat, b: nat)
    requires a <= b <= |es|
    ensures |OldOf(es[..a])| <= |OldOf(es[..b])|
  {
    OldSlice(es, a, b);
  }
}
