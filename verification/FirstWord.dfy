/** `controls_the_transaction`: whether a statement's first word, as SQLite or
    as Postgres would find it, begins, ends or marks a transaction. What may
    stand before a word is given as a grammar for each store. */
module FirstWord {
  import opened Alphabets
  import opened Options
  import opened SqlRegions

  datatype Reading = Sqlite | Postgres

  /** One thing that may stand before a word: whitespace or the `;` of an
      empty statement, a line comment, or a block comment. */
  datatype Gap = Blank(c: char) | Line(comment: string) | Block(comment: string)

  function GapText(g: Gap): string {
    match g case Blank(c) => [c] case Line(t) => t case Block(t) => t
  }

  predicate IsBlank(c: char) { c in " \t\n\r;" || c as int == 11 || c as int == 12 }

  predicate EndsLine(c: char, reading: Reading) { c == '\n' || (reading.Postgres? && c == '\r') }

  predicate OpensLine(s: string) { |s| >= 2 && s[0] == '-' && s[1] == '-' }

  /** A block comment that closes: SQLite's at its first closing mark, and
      Postgres's when every comment inside it has closed. */
  ghost predicate IsClosedBlock(t: string, reading: Reading) {
    && OpensComment(t)
    && if reading.Postgres? then exists x :: CommentFits(x) && t[2..] == CommentText(x)
       else Find(t[2..], "*/") == Some(|t| - 4)
  }

  /** Whether `g` may stand in front of `after`. A comment the text ends in
      need not close. */
  ghost predicate Fits(g: Gap, after: string, reading: Reading) {
    match g
    case Blank(c) => IsBlank(c)
    case Line(t) =>
      && OpensLine(t)
      && (forall k :: 0 <= k < |t| - 1 ==> !EndsLine(t[k], reading))
      && (EndsLine(t[|t| - 1], reading) || after == "")
    case Block(t) =>
      && OpensComment(t)
      && (IsClosedBlock(t, reading)
          || (after == "" && forall n :: 2 <= n <= |t| ==> !IsClosedBlock(t[..n], reading)))
  }

  /** `s` is these gaps and then `rest`. */
  ghost predicate Gaps(gaps: seq<Gap>, s: string, rest: string, reading: Reading) {
    if gaps == [] then s == rest
    else
      var n := |GapText(gaps[0])|;
      && n <= |s| && GapText(gaps[0]) == s[..n]
      && Fits(gaps[0], s[n..], reading)
      && Gaps(gaps[1..], s[n..], rest, reading)
  }

  predicate StartsGap(s: string) {
    s != "" && (IsBlank(s[0]) || OpensLine(s) || OpensComment(s))
  }

  // --- the scanner ---

  function LineEnd(s: string, reading: Reading): (n: nat)
    ensures n <= |s| && (s != "" ==> n > 0)
  {
    if s == "" then 0 else if EndsLine(s[0], reading) then 1 else 1 + LineEnd(s[1..], reading)
  }

  lemma LineEndIs(s: string, reading: Reading)
    ensures var n := LineEnd(s, reading);
      && (forall k :: 0 <= k < n - 1 ==> !EndsLine(s[k], reading))
      && (n < |s| ==> n > 0 && EndsLine(s[n - 1], reading))
  {
    if s != "" && !EndsLine(s[0], reading) {
      LineEndIs(s[1..], reading);
    }
  }

  /** Where the comment `s` opens with closes. */
  function ClosesAt(s: string, reading: Reading): (n: Option<nat>)
    requires OpensComment(s)
    ensures n.Some? ==> 2 <= n.value <= |s|
  {
    if reading.Postgres? then Add(2, CommentLength(s[2..], 1)) else Add(4, Find(s[2..], "*/"))
  }

  function BlockEnd(s: string, reading: Reading): (n: nat)
    requires OpensComment(s)
    ensures 2 <= n <= |s|
  {
    match ClosesAt(s, reading) case None => |s| case Some(n) => n
  }

  function GapLength(s: string, reading: Reading): (n: nat)
    requires StartsGap(s)
    ensures 0 < n <= |s|
  {
    if IsBlank(s[0]) then 1 else if OpensLine(s) then LineEnd(s, reading) else BlockEnd(s, reading)
  }

  /** The gap a text begins with. */
  function FirstGap(s: string, reading: Reading): (g: Gap)
    requires StartsGap(s)
    ensures GapText(g) <= s && GapText(g) != "" && |GapText(g)| == GapLength(s, reading)
  {
    if IsBlank(s[0]) then Blank(s[0])
    else if OpensLine(s) then Line(s[..LineEnd(s, reading)])
    else Block(s[..BlockEnd(s, reading)])
  }

  /** How many characters stand before the next word. */
  function NextWord(s: string, reading: Reading): (n: nat)
    ensures n <= |s|
    decreases |s|
  {
    if !StartsGap(s) then 0
    else
      var n := GapLength(s, reading);
      n + NextWord(s[n..], reading)
  }

  // --- the scanner reads the grammar ---

  lemma PostgresBlockIs(s: string, n: nat)
    requires OpensComment(s) && 2 <= n <= |s|
    ensures IsClosedBlock(s[..n], Postgres) <==> ClosesAt(s, Postgres) == Some(n)
  {
    var rest := s[2..];
    assert s[..n][2..] == rest[..n - 2];
    forall x | CommentFits(x) && s[..n][2..] == CommentText(x)
      ensures CommentLength(rest, 1) == Some(n - 2)
    {
      CommentComplete(x, 1, rest[n - 2..]);
      assert CommentText(x) + rest[n - 2..] == rest;
    }
    if CommentLength(rest, 1) == Some(n - 2) {
      var x := CommentSound(rest, 1);
      assert s[..n][2..] == CommentText(x);
    }
  }

  lemma SqliteBlockIs(s: string, n: nat)
    requires OpensComment(s) && 2 <= n <= |s|
    ensures IsClosedBlock(s[..n], Sqlite) <==> ClosesAt(s, Sqlite) == Some(n)
  {
    assert s[..n][2..] == s[2..][..n - 2];
    FindInPrefix(s[2..], n - 2, "*/");
  }

  lemma ClosedBlockIs(s: string, n: nat, reading: Reading)
    requires OpensComment(s) && 2 <= n <= |s|
    ensures IsClosedBlock(s[..n], reading) <==> ClosesAt(s, reading) == Some(n)
  {
    if reading.Postgres? { PostgresBlockIs(s, n); } else { SqliteBlockIs(s, n); }
  }

  lemma BlockIs(s: string, n: nat, reading: Reading)
    requires OpensComment(s) && 2 <= n <= |s|
    ensures Fits(Block(s[..n]), s[n..], reading) <==> n == BlockEnd(s, reading)
  {
    forall m | 2 <= m <= |s| ensures IsClosedBlock(s[..m], reading) <==> ClosesAt(s, reading) == Some(m) {
      ClosedBlockIs(s, m, reading);
    }
    assert forall m :: 2 <= m <= n ==> s[..n][..m] == s[..m];
    if ClosesAt(s, reading).Some? && n == |s| {
      assert s[..n][..ClosesAt(s, reading).value] == s[..ClosesAt(s, reading).value];
    }
  }

  lemma LineIs(s: string, n: nat, reading: Reading)
    requires OpensLine(s) && 2 <= n <= |s|
    ensures Fits(Line(s[..n]), s[n..], reading) <==> n == LineEnd(s, reading)
  {
    var m := LineEnd(s, reading);
    LineEndIs(s, reading);
    if n > m { assert EndsLine(s[m - 1], reading); assert s[..n][m - 1] == s[m - 1]; }
    assert s[..n][n - 1] == s[n - 1];
  }

  /** The scanner's first gap is the grammar's only one. */
  lemma FirstGapIs(s: string, g: Gap, reading: Reading)
    requires s != "" && GapText(g) <= s
    ensures StartsGap(s) && FirstGap(s, reading) == g <==> Fits(g, s[|GapText(g)|..], reading)
  {
    var n := |GapText(g)|;
    assert GapText(g) == s[..n];
    match g
    case Blank(c) =>
    case Line(t) =>
      if OpensLine(s) && n >= 2 {
        LineIs(s, n, reading);
        assert |s[..LineEnd(s, reading)]| == LineEnd(s, reading);
      }
    case Block(t) =>
      if OpensComment(s) && n >= 2 {
        BlockIs(s, n, reading);
        assert |s[..BlockEnd(s, reading)]| == BlockEnd(s, reading);
      }
  }

  /** After any gaps the scanner stands exactly on the text they precede. */
  lemma {:induction false} LandsOnTheWord(gaps: seq<Gap>, s: string, rest: string, reading: Reading)
    requires Gaps(gaps, s, rest, reading) && !StartsGap(rest)
    ensures |rest| <= |s| && NextWord(s, reading) == |s| - |rest| && s[|s| - |rest|..] == rest
    decreases gaps
  {
    if gaps != [] {
      var n := |GapText(gaps[0])|;
      if s != "" { FirstGapIs(s, gaps[0], reading); }
      LandsOnTheWord(gaps[1..], s[n..], rest, reading);
    }
  }

  lemma GapsOneMore(s: string, tail: seq<Gap>, rest: string, reading: Reading)
    requires StartsGap(s) && Gaps(tail, s[|GapText(FirstGap(s, reading))|..], rest, reading)
    ensures Gaps([FirstGap(s, reading)] + tail, s, rest, reading)
  {
    var g := FirstGap(s, reading);
    FirstGapIs(s, g, reading);
    assert ([g] + tail)[1..] == tail;
  }

  lemma SkippedMore(s: string, n: nat, reading: Reading)
    requires StartsGap(s) && n == GapLength(s, reading) && n <= |s|
    ensures s[n..][NextWord(s[n..], reading)..] == s[NextWord(s, reading)..]
  {
  }

  /** And what the scanner skips is always gaps. */
  lemma {:induction false} SkipsOnlyGaps(s: string, reading: Reading) returns (gaps: seq<Gap>)
    ensures Gaps(gaps, s, s[NextWord(s, reading)..], reading) && !StartsGap(s[NextWord(s, reading)..])
    decreases |s|
  {
    if !StartsGap(s) {
      gaps := [];
    } else {
      var n := |GapText(FirstGap(s, reading))|;
      var tail := SkipsOnlyGaps(s[n..], reading);
      SkippedMore(s, n, reading);
      GapsOneMore(s, tail, s[NextWord(s, reading)..], reading);
      gaps := [FirstGap(s, reading)] + tail;
    }
  }

  // --- what stands before a word, on the text itself ---

  /** What may stand before a word, a word's characters and where a line ends,
      spelled out. */
  lemma CharactersAre(c: char)
    ensures IsBlank(c) <==> c in " \t\n\r\U{0c}\U{0b};"
    ensures WordCharacter(c) <==> c in UPPER || c in LOWER || c in DIGITS || c in "_$"
    ensures (EndsLine(c, Sqlite) <==> c in "\n") && (EndsLine(c, Postgres) <==> c in "\n\r")
  {
    UpperIs(c);
    LowerIs(c);
    DigitIs(c);
  }

  lemma BlanksAreSkipped(c: char, s: string, reading: Reading)
    requires c in " \t\n\r\U{0c}\U{0b};"
    ensures NextWord([c] + s, reading) == 1 + NextWord(s, reading)
  {
    CharactersAre(c);
    assert ([c] + s)[1..] == s;
  }

  lemma {:induction false} LineEndsAt(body: string, end: char, s: string, reading: Reading)
    requires (forall c :: c in body ==> !EndsLine(c, reading)) && EndsLine(end, reading)
    ensures LineEnd(body + [end] + s, reading) == |body| + 1
  {
    var t := body + [end] + s;
    if body == "" {
      assert t[0] == end;
    } else {
      LineEndsAt(body[1..], end, s, reading);
      assert t[0] == body[0] && t[1..] == body[1..] + [end] + s;
    }
  }

  /** A line comment ends at a line feed, and for Postgres at a carriage return
      too. */
  lemma LinesAreSkipped(body: string, end: char, s: string, reading: Reading)
    requires '\n' !in body && (reading.Postgres? ==> '\r' !in body)
    requires end == '\n' || (reading.Postgres? && end == '\r')
    ensures NextWord("--" + body + [end] + s, reading) == |body| + 3 + NextWord(s, reading)
  {
    var t := "--" + body + [end] + s;
    var whole := "--" + body;
    assert t == whole + [end] + s;
    LineEndsAt(whole, end, s, reading);
    assert t[|body| + 3..] == s;
  }

  lemma CommentsAreSkipped(body: string, s: string, reading: Reading)
    requires '*' !in body && '/' !in body
    ensures NextWord("/*" + body + "*/" + s, reading) == |body| + 4 + NextWord(s, reading)
  {
    var t := "/*" + body + "*/" + s;
    assert t[2..] == body + "*/" + s && t[|body| + 4..] == s;
    FlatCommentCloses(body, s);
  }

  // --- the first words ---

  predicate WordCharacter(c: char) {
    'A' <= c <= 'Z' || 'a' <= c <= 'z' || '0' <= c <= '9' || c == '_' || c == '$'
  }

  function Lower(w: string): string {
    if w == "" then ""
    else [if 'A' <= w[0] <= 'Z' then w[0] - 'A' + 'a' else w[0]] + Lower(w[1..])
  }

  function WordRun(s: string): (n: nat)
    ensures n <= |s|
  {
    if s == "" || !WordCharacter(s[0]) then 0 else 1 + WordRun(s[1..])
  }

  lemma WordRunIs(s: string)
    ensures var n := WordRun(s);
      (forall k :: 0 <= k < n ==> WordCharacter(s[k])) && (n < |s| ==> !WordCharacter(s[n]))
  {
    if s != "" && WordCharacter(s[0]) {
      WordRunIs(s[1..]);
    }
  }

  datatype Word = Word(text: string, rest: string)

  /** The next word, and the text after it. */
  function WordAt(s: string, reading: Reading): Option<Word> {
    var at := s[NextWord(s, reading)..];
    var n := WordRun(at);
    if n == 0 then None else Some(Word(at[..n], at[n..]))
  }

  /** The first two words, in lower case, as `reading` finds them. */
  function FirstWords(s: string, reading: Reading): seq<string> {
    match WordAt(s, reading)
    case None => []
    case Some(first) =>
      match WordAt(first.rest, reading)
      case None => [Lower(first.text)]
      case Some(second) => [Lower(first.text), Lower(second.text)]
  }

  /** `word` is the word `s` begins with after any gaps, and `rest` follows. */
  ghost predicate Begins(s: string, word: string, rest: string, reading: Reading) {
    && word != "" && (forall k :: 0 <= k < |word| ==> WordCharacter(word[k]))
    && (rest != "" ==> !WordCharacter(rest[0]))
    && exists gaps :: Gaps(gaps, s, word + rest, reading)
  }

  const CONTROL_WORDS: set<string> :=
    {"begin", "start", "commit", "end", "rollback", "abort", "savepoint", "release"}

  function ReadingControls(s: string, reading: Reading): bool {
    var words := FirstWords(s, reading);
    || (words != [] && words[0] in CONTROL_WORDS)
    || words == ["prepare", "transaction"]
  }

  function Controls(s: string): bool {
    ReadingControls(s, Sqlite) || ReadingControls(s, Postgres)
  }

  lemma WordStartsNoGap(word: string, rest: string)
    requires word != "" && (forall k :: 0 <= k < |word| ==> WordCharacter(word[k]))
    ensures !StartsGap(word + rest)
  {
    assert (word + rest)[0] == word[0];
  }

  lemma RunIs(word: string, rest: string)
    requires forall k :: 0 <= k < |word| ==> WordCharacter(word[k])
    requires rest != "" ==> !WordCharacter(rest[0])
    ensures WordRun(word + rest) == |word|
  {
    var s := word + rest;
    WordRunIs(s);
    assert forall k :: 0 <= k < |word| ==> s[k] == word[k];
    assert rest != "" ==> s[|word|] == rest[0];
  }

  lemma WordIsFound(s: string, gaps: seq<Gap>, word: string, rest: string, reading: Reading)
    requires Gaps(gaps, s, word + rest, reading) && word != ""
    requires forall k :: 0 <= k < |word| ==> WordCharacter(word[k])
    requires rest != "" ==> !WordCharacter(rest[0])
    ensures WordAt(s, reading) == Some(Word(word, rest))
  {
    WordStartsNoGap(word, rest);
    LandsOnTheWord(gaps, s, word + rest, reading);
    RunIs(word, rest);
    assert (word + rest)[..|word|] == word && (word + rest)[|word|..] == rest;
  }

  lemma WordParts(at: string, n: nat)
    requires n == WordRun(at) && n > 0
    ensures at[..n] + at[n..] == at && (forall k :: 0 <= k < n ==> WordCharacter(at[..n][k]))
    ensures at[n..] != "" ==> !WordCharacter(at[n..][0])
  {
    WordRunIs(at);
  }

  lemma BeginsAfterGaps(s: string, gaps: seq<Gap>, at: string, word: string, rest: string, reading: Reading)
    requires Gaps(gaps, s, at, reading) && at == word + rest
    requires word != "" && (forall k :: 0 <= k < |word| ==> WordCharacter(word[k]))
    requires rest != "" ==> !WordCharacter(rest[0])
    ensures Begins(s, word, rest, reading)
  {
  }

  lemma FoundIsAWord(s: string, reading: Reading)
    requires WordAt(s, reading).Some?
    ensures Begins(s, WordAt(s, reading).value.text, WordAt(s, reading).value.rest, reading)
  {
    var at := s[NextWord(s, reading)..];
    var n := WordRun(at);
    var gaps := SkipsOnlyGaps(s, reading);
    WordParts(at, n);
    BeginsAfterGaps(s, gaps, at, at[..n], at[n..], reading);
  }

  /** The scanner finds a word exactly when there is one to find. */
  lemma WordAtIs(s: string, word: string, rest: string, reading: Reading)
    ensures WordAt(s, reading) == Some(Word(word, rest)) <==> Begins(s, word, rest, reading)
  {
    if Begins(s, word, rest, reading) {
      var gaps :| Gaps(gaps, s, word + rest, reading);
      WordIsFound(s, gaps, word, rest, reading);
    }
    if WordAt(s, reading) == Some(Word(word, rest)) {
      FoundIsAWord(s, reading);
    }
  }

  /** Each capital letter and its small one. */
  const CASES: set<(char, char)> := {
    ('A', 'a'), ('B', 'b'), ('C', 'c'), ('D', 'd'), ('E', 'e'), ('F', 'f'), ('G', 'g'), ('H', 'h'), ('I', 'i'),
    ('J', 'j'), ('K', 'k'), ('L', 'l'), ('M', 'm'), ('N', 'n'), ('O', 'o'), ('P', 'p'), ('Q', 'q'), ('R', 'r'),
    ('S', 's'), ('T', 't'), ('U', 'u'), ('V', 'v'), ('W', 'w'), ('X', 'x'), ('Y', 'y'), ('Z', 'z')}

  predicate SameLetter(c: char, lower: char) { c == lower || (c, lower) in CASES }

  /** `word` is `lower`, each letter in either case. */
  predicate Spells(word: string, lower: string) {
    if lower == "" then word == ""
    else word != "" && SameLetter(word[0], lower[0]) && Spells(word[1..], lower[1..])
  }

  lemma SameLetterIs(c: char, lower: char)
    requires 'a' <= lower <= 'z'
    ensures SameLetter(c, lower) <==> (if 'A' <= c <= 'Z' then c - 'A' + 'a' else c) == lower
  {
  }

  /** The scanner's lower case of a word is a word of letters just when it spells
      that word. */
  lemma {:induction false} LowerSpells(word: string, lower: string)
    requires forall k :: 0 <= k < |lower| ==> 'a' <= lower[k] <= 'z'
    ensures Lower(word) == lower <==> Spells(word, lower)
  {
    if word != "" && lower != "" {
      var first := if 'A' <= word[0] <= 'Z' then word[0] - 'A' + 'a' else word[0];
      SameLetterIs(word[0], lower[0]);
      LowerSpells(word[1..], lower[1..]);
      assert Lower(word) == [first] + Lower(word[1..]) && lower == [lower[0]] + lower[1..];
      assert Lower(word)[0] == first && Lower(word)[1..] == Lower(word[1..]);
    }
  }

  /** Whether the word is one of those that control a transaction, in any case. */
  ghost predicate IsControlWord(word: string) {
    || Spells(word, "begin") || Spells(word, "start") || Spells(word, "commit") || Spells(word, "end")
    || Spells(word, "rollback") || Spells(word, "abort") || Spells(word, "savepoint") || Spells(word, "release")
  }

  lemma HalfOfThem(word: string)
    ensures Spells(word, "begin") || Spells(word, "start") || Spells(word, "commit") || Spells(word, "end")
      <==> Lower(word) in {"begin", "start", "commit", "end"}
  {
    LowerSpells(word, "begin");
    LowerSpells(word, "start");
    LowerSpells(word, "commit");
    LowerSpells(word, "end");
  }

  lemma TheOtherHalf(word: string)
    ensures Spells(word, "rollback") || Spells(word, "abort") || Spells(word, "savepoint") || Spells(word, "release")
      <==> Lower(word) in {"rollback", "abort", "savepoint", "release"}
  {
    LowerSpells(word, "rollback");
    LowerSpells(word, "abort");
    LowerSpells(word, "savepoint");
    LowerSpells(word, "release");
  }

  lemma ControlWordIs(word: string)
    ensures IsControlWord(word) <==> Lower(word) in CONTROL_WORDS
  {
    HalfOfThem(word);
    TheOtherHalf(word);
  }

  /** Its first word under `reading` is this one. */
  ghost predicate BeginsWith(s: string, lower: string, reading: Reading) {
    exists word, rest :: Begins(s, word, rest, reading) && Spells(word, lower)
  }

  /** Whether the statement's first word under `reading` is a control word, or
      its first two are PREPARE TRANSACTION. */
  ghost predicate IsControl(s: string, reading: Reading) {
    exists word, rest :: Begins(s, word, rest, reading)
      && (IsControlWord(word) || (Spells(word, "prepare") && BeginsWith(rest, "transaction", reading)))
  }

  lemma FirstWordIsRead(s: string, lower: string, reading: Reading)
    requires forall k :: 0 <= k < |lower| ==> 'a' <= lower[k] <= 'z'
    ensures BeginsWith(s, lower, reading) <==>
      WordAt(s, reading).Some? && Lower(WordAt(s, reading).value.text) == lower
  {
    if BeginsWith(s, lower, reading) {
      var word, rest :| Begins(s, word, rest, reading) && Spells(word, lower);
      WordAtIs(s, word, rest, reading);
      LowerSpells(word, lower);
    }
    if WordAt(s, reading).Some? {
      var found := WordAt(s, reading).value;
      WordAtIs(s, found.text, found.rest, reading);
      LowerSpells(found.text, lower);
    }
  }

  /** What the words found say of the statement. */
  predicate FoundControls(found: Word, reading: Reading) {
    || Lower(found.text) in CONTROL_WORDS
    || (Lower(found.text) == "prepare"
        && WordAt(found.rest, reading).Some? && Lower(WordAt(found.rest, reading).value.text) == "transaction")
  }

  lemma ReadingIs(s: string, reading: Reading)
    ensures ReadingControls(s, reading) <==>
      WordAt(s, reading).Some? && FoundControls(WordAt(s, reading).value, reading)
  {
  }

  lemma FoundIs(found: Word, reading: Reading)
    ensures FoundControls(found, reading) <==>
      || IsControlWord(found.text)
      || (Spells(found.text, "prepare") && BeginsWith(found.rest, "transaction", reading))
  {
    ControlWordIs(found.text);
    LowerSpells(found.text, "prepare");
    FirstWordIsRead(found.rest, "transaction", reading);
  }

  lemma ControlIs(s: string, reading: Reading)
    ensures ReadingControls(s, reading) <==> IsControl(s, reading)
  {
    ReadingIs(s, reading);
    if WordAt(s, reading).Some? {
      var found := WordAt(s, reading).value;
      WordAtIs(s, found.text, found.rest, reading);
      FoundIs(found, reading);
    }
    if IsControl(s, reading) {
      var word, rest :| Begins(s, word, rest, reading)
        && (IsControlWord(word) || (Spells(word, "prepare") && BeginsWith(rest, "transaction", reading)));
      WordAtIs(s, word, rest, reading);
    }
  }

  /** A statement is refused exactly when either store would find a control
      word first. */
  lemma RefusesExactlyControl(s: string)
    ensures Controls(s) <==> IsControl(s, Sqlite) || IsControl(s, Postgres)
  {
    ControlIs(s, Sqlite);
    ControlIs(s, Postgres);
  }

  // --- the loops over an index ---

  method GapEnd(sql: string, index: nat, reading: Reading) returns (end: nat)
    requires index < |sql| && StartsGap(sql[index..])
    ensures end == index + GapLength(sql[index..], reading)
  {
    var s := sql[index..];
    if IsBlank(s[0]) {
      end := index + 1;
    } else if OpensLine(s) {
      end := index + LineEnd(s, reading);
    } else if reading.Postgres? {
      end := BlockCommentEnd(sql, index);
    } else {
      var close := Find(s[2..], "*/");
      end := if close.None? then |sql| else index + close.value + 4;
    }
  }

  /** `_next_word_at`. */
  method NextWordAt(sql: string, start: nat, reading: Reading) returns (index: nat)
    requires start <= |sql|
    ensures index == start + NextWord(sql[start..], reading)
  {
    index := start;
    while index < |sql| && StartsGap(sql[index..])
      invariant start <= index <= |sql|
      invariant index + NextWord(sql[index..], reading) == start + NextWord(sql[start..], reading)
    {
      var end := GapEnd(sql, index, reading);
      assert sql[index..][end - index..] == sql[end..];
      index := end;
    }
  }

  method FindWord(sql: string, index: nat, reading: Reading) returns (end: nat, word: string)
    requires index <= |sql|
    ensures index <= end <= |sql|
    ensures WordAt(sql[index..], reading) == if word == "" then None else Some(Word(word, sql[end..]))
  {
    var at := NextWordAt(sql, index, reading);
    assert sql[index..][NextWord(sql[index..], reading)..] == sql[at..];
    var n := WordRun(sql[at..]);
    end, word := at + n, sql[at..at + n];
    assert sql[at..][..n] == word && sql[at..][n..] == sql[end..];
  }

  /** The words found before `index`, two of them the end. */
  predicate Finding(sql: string, reading: Reading, index: nat, words: seq<string>) {
    && index <= |sql| && |words| <= 2
    && (words == [] ==> index == 0)
    && (|words| == 1 ==>
          var first := WordAt(sql, reading);
          first.Some? && words[0] == Lower(first.value.text) && first.value.rest == sql[index..])
    && (|words| == 2 ==> words == FirstWords(sql, reading))
  }

  lemma FindingMore(sql: string, reading: Reading, index: nat, words: seq<string>, end: nat, word: string)
    requires Finding(sql, reading, index, words) && |words| < 2 && end <= |sql|
    requires WordAt(sql[index..], reading) == if word == "" then None else Some(Word(word, sql[end..]))
    ensures if word == "" then words == FirstWords(sql, reading)
            else Finding(sql, reading, end, words + [Lower(word)])
  {
    if words == [] {
      assert sql[0..] == sql;
    } else {
      assert words == [Lower(WordAt(sql, reading).value.text)];
    }
  }

  /** `_first_words`. */
  method FindFirstWords(sql: string, reading: Reading) returns (words: seq<string>)
    ensures words == FirstWords(sql, reading)
  {
    words := [];
    var index := 0;
    while |words| < 2
      invariant 0 <= index && Finding(sql, reading, index, words)
      decreases 2 - |words|
    {
      var end, word := FindWord(sql, index, reading);
      FindingMore(sql, reading, index, words, end, word);
      if word == "" { return; }
      words, index := words + [Lower(word)], end;
    }
  }

  method ControlsTheTransaction(sql: string) returns (refused: bool)
    ensures refused <==> IsControl(sql, Sqlite) || IsControl(sql, Postgres)
  {
    var sqlite := FindFirstWords(sql, Sqlite);
    var postgres := FindFirstWords(sql, Postgres);
    refused := (sqlite != [] && sqlite[0] in CONTROL_WORDS) || sqlite == ["prepare", "transaction"]
            || (postgres != [] && postgres[0] in CONTROL_WORDS) || postgres == ["prepare", "transaction"];
    RefusesExactlyControl(sql);
  }
}
