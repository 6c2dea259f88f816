/** How the block parser reads partition entries: each function gives what is
    read from the text that is left, and the text left after it; None is an error. */
module PartitionGrammar {
  import opened Text
  import opened Scanner

  // ----- suffixes recognised by regular expressions

  predicate IsRegexSpace(c: char) {
    c == ' ' || c == '\t' || c == '\n' || c == '\r' || c == 12 as char
  }

  function SkipRegexSpace(s: string): (r: string)
    ensures |r| <= |s|
  {
    if s != [] && IsRegexSpace(s[0]) then SkipRegexSpace(s[1..]) else s
  }

  function TrimRegexRight(s: string): (r: string)
    ensures |r| <= |s|
  {
    if s != [] && IsRegexSpace(s[|s| - 1]) then TrimRegexRight(s[..|s| - 1]) else s
  }

  /** At least one space. */
  function SomeSpace(s: string): Option<string> {
    if s != [] && IsRegexSpace(s[0]) then Some(SkipRegexSpace(s)) else None
  }

  /** A word in any case. */
  function TakeFold(s: string, word: string): Option<string> {
    if |word| <= |s| && SameFold(s[..|word|], word) then Some(s[|word|..]) else None
  }

  function TakeStrategy(s: string): Option<Read<string>> {
    if TakeFold(s, "RANGE").Some? then Some(Read("RANGE", s[5..]))
    else if TakeFold(s, "LIST").Some? then Some(Read("LIST", s[4..]))
    else if TakeFold(s, "HASH").Some? then Some(Read("HASH", s[4..]))
    else None
  }

  datatype SubClause = SubClause(strategy: string, columns: string)

  /** PARTITION BY strategy (columns), up to the end of the text. */
  function SubClauseAt(s: string): Option<SubClause> {
    var s1 :- TakeFold(s, "PARTITION");
    var s2 :- SomeSpace(s1);
    var s3 :- TakeFold(s2, "BY");
    var s4 :- SomeSpace(s3);
    var strategy :- TakeStrategy(s4);
    var s5 := SkipRegexSpace(strategy.rest);
    if !StartsWith(s5, '(') then None
    else
      var cut :- Cut(s5[1..], ')');
      if SkipRegexSpace(cut.1) == [] then Some(SubClause(strategy.value, cut.0)) else None
  }

  /** A clause found in a text, and the text before it. */
  datatype Found<+T> = Found(before: string, clause: T)

  /** The leftmost place, at a word boundary, where the clause runs to the end. */
  function FindSubClause(s: string, afterWord: bool): Option<Found<SubClause>> {
    if !afterWord && SubClauseAt(s).Some? then Some(Found([], SubClauseAt(s).value))
    else if s == [] then None
    else
      var later :- FindSubClause(s[1..], IsWordChar(s[0]));
      Some(later.(before := [s[0]] + later.before))
  }

  /** Quotes come in pairs. */
  predicate Paired(s: string) {
    s == [] || (s[0] != '"' && Paired(s[1..])) || (StartsWithTwo(s, '"', '"') && Paired(s[2..]))
  }

  function Undouble(s: string): string {
    if s == [] then []
    else if StartsWithTwo(s, '"', '"') then ['"'] + Undouble(s[2..])
    else [s[0]] + Undouble(s[1..])
  }

  /** Letters, digits, underscores and dollars. */
  function DollarWord(s: string): (w: string)
    ensures w <= s
  {
    if s != [] && (IsWordChar(s[0]) || s[0] == '$') then [s[0]] + DollarWord(s[1..]) else []
  }

  /** A name, quoted or bare, up to the end of the text. */
  function RenameTarget(s: string): Option<string> {
    if StartsWith(s, '"') then
      var t := TrimRegexRight(s);
      if |t| > 2 && t[|t| - 1] == '"' && Paired(t[1..|t| - 1]) then Some(Undouble(t[1..|t| - 1])) else None
    else if s != [] && IsWordStart(s[0]) && SkipRegexSpace(s[|DollarWord(s)|..]) == [] then Some(DollarWord(s))
    else None
  }

  /** RENAMED FROM name, up to the end of the text. */
  function RenameAt(s: string): Option<string> {
    var s1 :- TakeFold(s, "RENAMED");
    var s2 :- SomeSpace(s1);
    var s3 :- TakeFold(s2, "FROM");
    var s4 :- SomeSpace(s3);
    RenameTarget(s4)
  }

  function FindRename(s: string, afterWord: bool): Option<Found<string>> {
    if !afterWord && RenameAt(s).Some? then Some(Found([], RenameAt(s).value))
    else if s == [] then None
    else
      var later :- FindRename(s[1..], IsWordChar(s[0]));
      Some(later.(before := [s[0]] + later.before))
  }

  // ----- constraints

  datatype ConstraintDef = ConstraintDef(name: Identifier, expr: string, renamedFrom: Option<string>,
                                         notValid: bool, notEnforced: bool, comment: Option<string>)

  predicate EndsInFold(s: string, word: string) {
    |word| <= |s| && SameFold(s[|s| - |word|..], word)
  }

  /** Takes a suffix off, and the white space before it. */
  function DropEnd(s: string, n: nat): string
    requires n <= |s|
  {
    TrimSpace(s[..|s| - n])
  }

  /** Whether a trailing clause was there, and the text without it. */
  datatype Flagged = Flagged(on: bool, text: string)

  function TakeEnforced(s: string): Flagged {
    if EndsInFold(s, "NOT ENFORCED") then Flagged(true, DropEnd(s, 12))
    else if EndsInFold(s, "ENFORCED") then Flagged(false, DropEnd(s, 8))
    else Flagged(false, s)
  }

  function TakeValid(s: string): Flagged {
    if EndsInFold(s, "NOT VALID") then Flagged(true, DropEnd(s, 9)) else Flagged(false, s)
  }

  /** The trailing clauses of a constraint, taken off from right to left. */
  function SplitConstraint(name: Identifier, text: string, comment: Option<string>): ConstraintDef {
    var raw := TrimSpace(text);
    var renamed := FindRename(raw, false);
    var enforced := TakeEnforced(if renamed.Some? then TrimSpace(renamed.value.before) else raw);
    var valid := TakeValid(enforced.text);
    ConstraintDef(name, valid.text, if renamed.Some? then Some(renamed.value.clause) else None, valid.on, enforced.on, comment)
  }

  /** A bare ";", or a block with a comment, or nothing. */
  function CommentBlock(s: string): (r: Option<Read<Option<string>>>)
    ensures r.Some? ==> |r.value.rest| <= |s|
  {
    var s1 := SkipBlank(s);
    if StartsWith(s1, '{') then
      var s2 := SkipBlank(s1[1..]);
      if !SameFold(Word(s2), "COMMENT") then None
      else
        var text :- Quoted(SkipBlank(AfterWord(s2)), '\'');
        var s3 := SkipBlank(text.rest);
        if !StartsWith(s3, ';') then None
        else
          var s4 := SkipBlank(s3[1..]);
          if StartsWith(s4, '}') then Some(Read(Some(text.value), s4[1..])) else None
    else if StartsWith(s1, ';') then Some(Read(None, s1[1..]))
    else Some(Read(None, s1))
  }

  function Constraint(s: string): (r: Option<Read<ConstraintDef>>)
    ensures r.Some? ==> |r.value.rest| < |s|
  {
    var name :- Ident(s);
    var raw :- RawUntil(name.rest, ";{");
    var comment :- CommentBlock(raw.rest);
    Some(Read(SplitConstraint(name.value, raw.value, comment.value), comment.rest))
  }

  /** Constraints up to a closing brace or the end. */
  function ConstraintList(s: string): (r: Option<Read<seq<ConstraintDef>>>)
    ensures r.Some? ==> |r.value.rest| <= |s|
    decreases |s|
  {
    var s1 := SkipBlank(s);
    if s1 == [] || s1[0] == '}' then Some(Read([], s1))
    else
      var first :- Constraint(s1);
      var others :- ConstraintList(first.rest);
      Some(Read([first.value] + others.value, others.rest))
  }

  function ConstraintsBlock(s: string): (r: Option<Read<seq<ConstraintDef>>>)
    ensures r.Some? ==> |r.value.rest| < |s|
  {
    var s1 := SkipBlank(s);
    if !StartsWith(s1, '{') then None
    else
      var list :- ConstraintList(s1[1..]);
      if StartsWith(list.rest, '}') then Some(Read(list.value, list.rest[1..])) else None
  }

  // ----- a partition entry

  datatype StorageParam = StorageParam(key: string, value: string)

  datatype Bound = Bound(
    name: Identifier, attachedFrom: Option<Identifier>, bounds: string, renamedFrom: Option<string>,
    server: Option<Identifier>, options: seq<StorageParam>, subStrategy: string, subColumns: seq<string>,
    subPartitions: seq<Bound>, constraints: seq<ConstraintDef>)

  /** The key and value pairs of an OPTIONS list, up to its closing parenthesis. */
  function OptionList(s: string): (r: Option<Read<seq<StorageParam>>>)
    ensures r.Some? ==> |r.value.rest| < |s|
    decreases |s|
  {
    if StartsWith(s, ')') then Some(Read([], s[1..]))
    else
      var key :- Ident(s);
      var value :- Quoted(SkipBlank(key.rest), '\'');
      var param := StorageParam(key.value.name, value.value);
      var s1 := SkipBlank(value.rest);
      if StartsWith(s1, ',') then
        var others :- OptionList(SkipBlank(s1[1..]));
        Some(Read([param] + others.value, others.rest))
      else if StartsWith(s1, ')') then Some(Read([param], s1[1..]))
      else None
  }

  function OptionsClause(s: string): (r: Option<Read<seq<StorageParam>>>)
    ensures r.Some? ==> |r.value.rest| <= |s|
  {
    var s1 := SkipBlank(s);
    if !SameFold(Word(s1), "OPTIONS") then Some(Read([], s1))
    else
      var s2 := SkipBlank(AfterWord(s1));
      if StartsWith(s2, '(') then OptionList(SkipBlank(s2[1..])) else None
  }

  datatype ServerClause = ServerClause(bounds: string, server: Identifier, options: seq<StorageParam>)

  /** SERVER, a name, and its options, up to the end of the text. */
  function ServerTail(s: string): Option<(Identifier, seq<StorageParam>)> {
    var s1 := SkipBlank(s);
    if !SameFold(Word(s1), "SERVER") then None
    else
      var server :- Ident(AfterWord(s1));
      var options :- OptionsClause(server.rest);
      if SkipBlank(options.rest) == [] then Some((server.value, options.value)) else None
  }

  /** The text before SERVER, the server, and its options. */
  function SplitServer(raw: string): Option<ServerClause> {
    var at :- FindWord(raw, "SERVER", 0);
    var tail :- ServerTail(at);
    Some(ServerClause(raw[..|raw| - |at|], tail.0, tail.1))
  }

  /** The pieces between separators outside parentheses. */
  function SplitTopLevel(s: string, sep: char, depth: int, piece: string): (r: seq<string>) {
    if s == [] then [piece]
    else if s[0] == '(' then SplitTopLevel(s[1..], sep, depth + 1, piece + [s[0]])
    else if s[0] == ')' then SplitTopLevel(s[1..], sep, depth - 1, piece + [s[0]])
    else if s[0] == sep && depth == 0 then [piece] + SplitTopLevel(s[1..], sep, depth, [])
    else SplitTopLevel(s[1..], sep, depth, piece + [s[0]])
  }

  /** The pieces that are not blank, trimmed. */
  function NonBlank(pieces: seq<string>): seq<string> {
    if pieces == [] then []
    else
      var first := TrimSpace(pieces[0]);
      (if first == [] then [] else [first]) + NonBlank(pieces[1..])
  }

  /** What the text between a partition's name and its body says. */
  function BoundOf(name: Identifier, raw: string, foreign: bool): Option<Bound> {
    var sub := FindSubClause(raw, false);
    var text := if sub.Some? then sub.value.before else raw;
    var renamed := FindRename(text, false);
    var text1 := if renamed.Some? then renamed.value.before else text;
    var target := if renamed.Some? then Some(renamed.value.clause) else None;
    if foreign then
      if sub.Some? then None
      else
        var clause :- SplitServer(text1);
        Some(Bound(name, None, TrimSpace(clause.bounds), target, Some(clause.server), clause.options, [], [], [], []))
    else if sub.Some? then
      Some(Bound(name, None, TrimSpace(text1), target, None, [], sub.value.clause.strategy,
                 NonBlank(SplitTopLevel(sub.value.clause.columns, ',', 0, [])), [], []))
    else Some(Bound(name, None, TrimSpace(text1), target, None, [], [], [], [], []))
  }

  /** The optional semicolon after an entry. */
  function AfterSemi(s: string): (r: string)
    ensures |r| <= |s|
  {
    var s1 := SkipBlank(s);
    if StartsWith(s1, ';') then s1[1..] else s1
  }

  /** An entry that attaches an existing table, after the word ATTACHED. */
  function Attached(s: string): (r: Option<Read<Bound>>)
    ensures r.Some? ==> |r.value.rest| < |s|
  {
    if !SameFold(Word(SkipBlank(s)), "FROM") then None
    else
      var name :- Ident(AfterWord(SkipBlank(s)));
      var raw :- RawUntil(name.rest, ";{}");
      Some(Read(Bound(name.value, Some(name.value), TrimSpace(raw.value), None, None, [], [], [], [], []), AfterSemi(raw.rest)))
  }

  /** The keywords before an entry's name, and the text from the name on. */
  datatype Opening = Opening(foreign: bool, attached: bool, rest: string)

  function Open(s: string): (o: Opening)
    ensures |o.rest| <= |s|
  {
    var s1 := SkipBlank(s);
    var foreign := SameFold(Word(s1), "FOREIGN");
    var s2 := if foreign then SkipBlank(AfterWord(s1)) else s1;
    var attached := SameFold(Word(s2), "ATTACHED");
    Opening(foreign, attached, if attached then AfterWord(s2) else s2)
  }

  /** The sub-partitions and constraints of an entry's own block. */
  datatype Parts = Parts(subs: seq<Bound>, constraints: seq<ConstraintDef>)

  function Entry(s: string): (r: Option<Read<Bound>>)
    ensures r.Some? ==> |r.value.rest| < |s|
    decreases |s|, 0
  {
    var o := Open(s);
    if o.attached then if o.foreign then None else Attached(o.rest)
    else
      var name :- Ident(o.rest);
      var raw :- RawUntil(name.rest, ";{}");
      var bound :- BoundOf(name.value, raw.value, o.foreign);
      if StartsWith(raw.rest, '{') then
        var body :- Body(raw.rest[1..], bound.subStrategy != []);
        Some(Read(bound.(subPartitions := body.value.subs, constraints := body.value.constraints), AfterSemi(body.rest)))
      else if bound.subStrategy != [] then None
      else Some(Read(bound, AfterSemi(raw.rest)))
  }

  /** One directive of an entry's block. */
  function Directive(s: string, allowSubs: bool): (r: Option<Read<Parts>>)
    ensures r.Some? ==> |r.value.rest| < |s|
    decreases |s|, 0
  {
    var rest := AfterWord(s);
    if SameFold(Word(s), "PARTITIONS") then
      assert |ToUpper(Word(s))| == |Word(s)| && |ToUpper("PARTITIONS")| == 10;
      if !allowSubs then None
      else
        var subs :- PartitionsBlock(rest);
        Some(Read(Parts(subs.value, []), subs.rest))
    else if SameFold(Word(s), "CONSTRAINT") then
      var c :- Constraint(rest);
      Some(Read(Parts([], [c.value]), c.rest))
    else if SameFold(Word(s), "CONSTRAINTS") then
      var cs :- ConstraintsBlock(rest);
      Some(Read(Parts([], cs.value), cs.rest))
    else None
  }

  /** Parts in front of those read after them. */
  function Prepended(parts: Parts, later: Option<Read<Parts>>): Option<Read<Parts>> {
    var more :- later;
    Some(Read(Parts(parts.subs + more.value.subs, parts.constraints + more.value.constraints), more.rest))
  }

  /** The block of an entry, after its opening brace. */
  function Body(s: string, allowSubs: bool): (r: Option<Read<Parts>>)
    ensures r.Some? ==> |r.value.rest| < |s|
    decreases |s|, 1
  {
    var s1 := SkipBlank(s);
    if s1 == [] then None
    else if s1[0] == '}' then Some(Read(Parts([], []), s1[1..]))
    else
      var first :- Directive(s1, allowSubs);
      Prepended(first.value, Body(first.rest, allowSubs))
  }

  function PartitionsBlock(s: string): (r: Option<Read<seq<Bound>>>)
    ensures r.Some? ==> |r.value.rest| < |s|
    decreases |s|, 0
  {
    var s1 := SkipBlank(s);
    if !StartsWith(s1, '{') then None
    else
      var list :- Entries(s1[1..]);
      if StartsWith(list.rest, '}') then Some(Read(list.value, list.rest[1..])) else None
  }

  /** Entries up to a closing brace or the end. */
  function Entries(s: string): (r: Option<Read<seq<Bound>>>)
    ensures r.Some? ==> |r.value.rest| <= |s|
    decreases |s|, 1
  {
    var s1 := SkipBlank(s);
    if s1 == [] || s1[0] == '}' then Some(Read([], s1))
    else
      var first :- Entry(s1);
      var others :- Entries(first.rest);
      Some(Read([first.value] + others.value, others.rest))
  }
}
