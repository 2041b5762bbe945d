/** The parts of an SQL text a placeholder cannot stand in, as a grammar: quoted
    texts, nested block comments and dollar quotes. Each has the number of
    characters a scanner reads from its start, and the two are proved to say
    the same. A text is read from where it is, so every scanner is given the
    rest of the text. */
module SqlRegions {
  import opened Options

  function Add(n: nat, found: Option<nat>): (r: Option<nat>)
  {
    match found case None => None case Some(m) => Some(n + m)
  }

  predicate StartsWith(s: string, prefix: string) {
    |prefix| <= |s| && s[..|prefix|] == prefix
  }

  lemma StartsWithIs(s: string, prefix: string)
    ensures StartsWith(s, prefix) <==> prefix <= s
  {
  }

  /** Python's `find`: the first place of `what` in `s`. */
  function Find(s: string, what: string): (r: Option<nat>)
    ensures r.Some? ==> r.value + |what| <= |s|
  {
    if StartsWith(s, what) then Some(0) else if s == "" then None else Add(1, Find(s[1..], what))
  }

  lemma {:induction false} FindIs(s: string, what: string)
    ensures var r := Find(s, what);
      && (r.Some? ==> StartsWith(s[r.value..], what))
      && (forall k {:trigger s[k..]} :: 0 <= k <= |s| && (r.Some? ==> k < r.value) ==> !StartsWith(s[k..], what))
  {
    assert s[0..] == s;
    if !StartsWith(s, what) && s != "" {
      FindIs(s[1..], what);
      assert forall k {:trigger s[k..]} :: 1 <= k <= |s| ==> s[k..] == s[1..][k - 1..];
    }
  }

  /** A first place is the same in the whole text and in a beginning of it
      long enough to hold it. */
  lemma FindInPrefix(whole: string, n: nat, what: string)
    requires n <= |whole|
    ensures var a, b := Find(whole[..n], what), Find(whole, what);
      (a.Some? ==> a == b) && (b.Some? && b.value + |what| <= n ==> a == b)
  {
    var part := whole[..n];
    FindIs(part, what);
    FindIs(whole, what);
    assert forall k {:trigger part[k..]} {:trigger whole[k..]} :: 0 <= k && k + |what| <= n ==>
      part[k..][..|what|] == whole[k..][..|what|];
  }

  lemma TwoParts(s: string, n: nat, m: nat)
    requires n + m <= |s|
    ensures s[..n] + s[n..][..m] == s[..n + m] && s[n..][m..] == s[n + m..]
  {
    var whole, rest := s[..n + m], s[n..];
    assert |rest| == |s| - n && forall k :: 0 <= k < |rest| ==> rest[k] == s[n + k];
    assert whole == s[..n] + rest[..m];
  }

  lemma PartsOf(s: string, a: string, b: string)
    requires a + b <= s
    ensures s[..|a|] == a && s[|a|..][..|b|] == b && s[|a|..][|b|..] == s[|a| + |b|..]
  {
    var whole := a + b;
    assert |whole| == |a| + |b| && s[..|whole|] == whole;
    assert forall k :: 0 <= k < |a| ==> s[k] == whole[k] == a[k];
    assert forall k :: 0 <= k < |b| ==> s[|a| + k] == whole[|a| + k] == b[k];
    var rest := s[|a|..];
    assert forall k :: 0 <= k < |b| ==> rest[k] == b[k];
    assert rest[..|b|] == b;
  }

  // --- quoted texts ---

  /** What follows an opening quote: the closing quote, or a character, a
      doubled quote or an escaped character and then the rest. */
  datatype Quoted =
    | Close
    | Put(c: char, rest: Quoted)
    | Doubled(rest: Quoted)
    | Escaped(c: char, rest: Quoted)

  function QuotedText(x: Quoted, quote: char): (t: string)
    ensures t != ""
  {
    match x
    case Close => [quote]
    case Put(c, rest) => [c] + QuotedText(rest, quote)
    case Doubled(rest) => [quote, quote] + QuotedText(rest, quote)
    case Escaped(c, rest) => ['\\', c] + QuotedText(rest, quote)
  }

  predicate QuotedFits(x: Quoted, quote: char, backslash: bool, after: string) {
    match x
    case Close => !StartsWith(after, [quote])
    case Put(c, rest) => c != quote && !(backslash && c == '\\') && QuotedFits(rest, quote, backslash, after)
    case Doubled(rest) => QuotedFits(rest, quote, backslash, after)
    case Escaped(_, rest) => backslash && QuotedFits(rest, quote, backslash, after)
  }

  /** The characters from after an opening quote to the end of the text it
      opens, or None when the quote never closes. */
  function QuotedLength(s: string, quote: char, backslash: bool): (r: Option<nat>)
    ensures r.Some? ==> 1 <= r.value <= |s|
  {
    if s == "" then None
    else if backslash && s[0] == '\\' then
      if |s| == 1 then None else Add(2, QuotedLength(s[2..], quote, backslash))
    else if s[0] == quote then
      if |s| >= 2 && s[1] == quote then Add(2, QuotedLength(s[2..], quote, backslash)) else Some(1)
    else Add(1, QuotedLength(s[1..], quote, backslash))
  }

  lemma {:induction false} QuotedComplete(x: Quoted, quote: char, backslash: bool, after: string)
    requires QuotedFits(x, quote, backslash, after) && (backslash ==> quote != '\\')
    ensures QuotedLength(QuotedText(x, quote) + after, quote, backslash) == Some(|QuotedText(x, quote)|)
  {
    var s := QuotedText(x, quote) + after;
    match x
    case Close =>
      assert s[1..] == after;
    case Put(c, rest) =>
      assert s[1..] == QuotedText(rest, quote) + after;
      QuotedComplete(rest, quote, backslash, after);
    case Doubled(rest) =>
      assert s[2..] == QuotedText(rest, quote) + after;
      QuotedComplete(rest, quote, backslash, after);
    case Escaped(c, rest) =>
      assert s[2..] == QuotedText(rest, quote) + after;
      QuotedComplete(rest, quote, backslash, after);
  }

  predicate IsQuoted(x: Quoted, s: string, quote: char, backslash: bool, n: nat)
    requires n <= |s|
  {
    QuotedText(x, quote) == s[..n] && QuotedFits(x, quote, backslash, s[n..])
  }

  lemma QuotedPair(s: string, x: Quoted, quote: char, backslash: bool, n: nat)
    requires |s| >= 2 && n <= |s| - 2 && IsQuoted(x, s[2..], quote, backslash, n)
    ensures s[0] == quote == s[1] ==> IsQuoted(Doubled(x), s, quote, backslash, n + 2)
    ensures backslash && s[0] == '\\' ==> IsQuoted(Escaped(s[1], x), s, quote, backslash, n + 2)
  {
    assert s[n + 2..] == s[2..][n..];
    assert s[..n + 2] == [s[0], s[1]] + s[2..][..n];
  }

  lemma QuotedPut(s: string, x: Quoted, quote: char, backslash: bool, n: nat)
    requires s != "" && n <= |s| - 1 && IsQuoted(x, s[1..], quote, backslash, n)
    requires s[0] != quote && !(backslash && s[0] == '\\')
    ensures IsQuoted(Put(s[0], x), s, quote, backslash, n + 1)
  {
    assert s[n + 1..] == s[1..][n..];
    assert s[..n + 1] == [s[0]] + s[1..][..n];
  }

  /** The quoted text a scan found. */
  lemma {:induction false} QuotedSound(s: string, quote: char, backslash: bool) returns (x: Quoted)
    requires QuotedLength(s, quote, backslash).Some? && (backslash ==> quote != '\\')
    ensures IsQuoted(x, s, quote, backslash, QuotedLength(s, quote, backslash).value)
    decreases |s|
  {
    if backslash && s[0] == '\\' {
      var rest := QuotedSound(s[2..], quote, backslash);
      x := Escaped(s[1], rest);
      QuotedPair(s, rest, quote, backslash, QuotedLength(s[2..], quote, backslash).value);
    } else if s[0] != quote {
      var rest := QuotedSound(s[1..], quote, backslash);
      x := Put(s[0], rest);
      QuotedPut(s, rest, quote, backslash, QuotedLength(s[1..], quote, backslash).value);
    } else if |s| >= 2 && s[1] == quote {
      var rest := QuotedSound(s[2..], quote, backslash);
      x := Doubled(rest);
      QuotedPair(s, rest, quote, backslash, QuotedLength(s[2..], quote, backslash).value);
    } else {
      x := Close;
    }
  }

  // --- block comments that nest ---

  /** What follows an opening comment mark: the closing one, or a character or
      a whole nested comment and then the rest. */
  datatype Comment = End | Ch(c: char, rest: Comment) | Sub(inner: Comment, rest: Comment)

  function CommentText(x: Comment): (t: string)
    ensures |t| >= 2
  {
    match x
    case End => "*/"
    case Ch(c, rest) => [c] + CommentText(rest)
    case Sub(inner, rest) => "/*" + CommentText(inner) + CommentText(rest)
  }

  predicate OpensComment(s: string) { |s| >= 2 && s[0] == '/' && s[1] == '*' }
  predicate ClosesComment(s: string) { |s| >= 2 && s[0] == '*' && s[1] == '/' }

  lemma MarksAre(s: string)
    ensures (OpensComment(s) <==> "/*" <= s) && (ClosesComment(s) <==> "*/" <= s)
  {
  }

  predicate CommentFits(x: Comment) {
    match x
    case End => true
    case Ch(c, rest) =>
      var t := [c] + CommentText(rest);
      !OpensComment(t) && !ClosesComment(t) && CommentFits(rest)
    case Sub(inner, rest) => CommentFits(inner) && CommentFits(rest)
  }

  /** The characters from inside `depth` open comments to the end of the
      outermost, or None when it never closes. */
  function CommentLength(s: string, depth: nat): (r: Option<nat>)
    requires depth > 0
    ensures r.Some? ==> 2 <= r.value <= |s|
  {
    if s == "" then None
    else if OpensComment(s) then Add(2, CommentLength(s[2..], depth + 1))
    else if ClosesComment(s) then
      if depth == 1 then Some(2) else Add(2, CommentLength(s[2..], depth - 1))
    else Add(1, CommentLength(s[1..], depth))
  }

  /** What a scan of `s` inside `depth` comments says once it has read `n`
      characters that close the innermost one. */
  predicate ClosesOne(s: string, depth: nat, n: nat)
    requires depth > 0
  {
    n <= |s| && CommentLength(s, depth) == if depth == 1 then Some(n) else Add(n, CommentLength(s[n..], depth - 1))
  }

  lemma ClosesAfterCharacter(s: string, depth: nat, n: nat)
    requires depth > 0 && s != "" && !OpensComment(s) && !ClosesComment(s) && ClosesOne(s[1..], depth, n)
    ensures ClosesOne(s, depth, n + 1)
  {
    assert s[1..][n..] == s[n + 1..];
  }

  lemma ClosesAfterNested(s: string, depth: nat, inside: string, n: nat, outside: string, m: nat)
    requires depth > 0 && OpensComment(s) && s[2..] == inside && n <= |inside| && inside[n..] == outside
    requires ClosesOne(inside, depth + 1, n) && ClosesOne(outside, depth, m)
    ensures ClosesOne(s, depth, 2 + n + m)
  {
    assert outside[m..] == s[2 + n + m..];
  }

  lemma CharacterText(c: char, rest: Comment, after: string)
    requires CommentFits(Ch(c, rest))
    ensures var s := CommentText(Ch(c, rest)) + after;
      s != "" && s[1..] == CommentText(rest) + after && !OpensComment(s) && !ClosesComment(s)
      && |CommentText(Ch(c, rest))| == |CommentText(rest)| + 1
  {
    var t := [c] + CommentText(rest);
    assert CommentText(Ch(c, rest)) == t;
    assert (t + after)[0] == t[0] && (t + after)[1] == t[1];
  }

  lemma ClosesAtEnd(after: string, depth: nat)
    requires depth > 0
    ensures ClosesOne("*/" + after, depth, 2)
  {
    assert ("*/" + after)[2..] == after;
  }

  lemma ThreeParts(a: string, b: string, c: string, after: string)
    ensures var s := (a + b + c) + after;
      && |s| >= |a| + |b| && s[..|a|] == a && s[|a|..] == b + (c + after) && s[|a|..][|b|..] == c + after
  {
    assert (a + b + c) + after == a + (b + (c + after));
  }

  lemma NestedText(inner: Comment, rest: Comment, after: string)
    ensures var s := CommentText(Sub(inner, rest)) + after;
      && OpensComment(s) && s[2..] == CommentText(inner) + (CommentText(rest) + after)
      && s[2..][|CommentText(inner)|..] == CommentText(rest) + after
      && |CommentText(Sub(inner, rest))| == 2 + |CommentText(inner)| + |CommentText(rest)|
  {
    ThreeParts("/*", CommentText(inner), CommentText(rest), after);
  }

  lemma CharacterStep(c: char, rest: Comment, depth: nat, after: string)
    requires depth > 0 && CommentFits(Ch(c, rest)) && ClosesOne(CommentText(rest) + after, depth, |CommentText(rest)|)
    ensures ClosesOne(CommentText(Ch(c, rest)) + after, depth, |CommentText(Ch(c, rest))|)
  {
    CharacterText(c, rest, after);
    ClosesAfterCharacter(CommentText(Ch(c, rest)) + after, depth, |CommentText(rest)|);
  }

  lemma NestedStep(inner: Comment, rest: Comment, depth: nat, outside: string, inside: string, s: string)
    requires depth > 0 && OpensComment(s) && s[2..] == inside
    requires |CommentText(inner)| <= |inside| && inside[|CommentText(inner)|..] == outside
    requires ClosesOne(inside, depth + 1, |CommentText(inner)|) && ClosesOne(outside, depth, |CommentText(rest)|)
    ensures ClosesOne(s, depth, |CommentText(Sub(inner, rest))|)
  {
    SubLength(inner, rest);
    ClosesAfterNested(s, depth, inside, |CommentText(inner)|, outside, |CommentText(rest)|);
  }

  lemma SubLength(inner: Comment, rest: Comment)
    ensures |CommentText(Sub(inner, rest))| == 2 + |CommentText(inner)| + |CommentText(rest)|
  {
  }

  /** Scanning a comment of the grammar closes one level, however deep it nests. */
  lemma {:induction false} CommentComplete(x: Comment, depth: nat, after: string)
    requires CommentFits(x) && depth > 0
    ensures ClosesOne(CommentText(x) + after, depth, |CommentText(x)|)
  {
    match x
    case End => ClosesAtEnd(after, depth);
    case Ch(c, rest) =>
      CommentComplete(rest, depth, after);
      CharacterStep(c, rest, depth, after);
    case Sub(inner, rest) =>
      var outside := CommentText(rest) + after;
      CommentComplete(inner, depth + 1, outside);
      CommentComplete(rest, depth, after);
      NestedText(inner, rest, after);
      NestedStep(inner, rest, depth, outside, CommentText(inner) + outside, CommentText(x) + after);
  }

  predicate IsComment(x: Comment, s: string) {
    CommentFits(x) && |CommentText(x)| <= |s| && CommentText(x) == s[..|CommentText(x)|]
  }

  lemma CharacterAt(s: string, rest: Comment)
    requires s != "" && !OpensComment(s) && !ClosesComment(s) && IsComment(rest, s[1..])
    ensures IsComment(Ch(s[0], rest), s) && |CommentText(Ch(s[0], rest))| == |CommentText(rest)| + 1
  {
    var m := |CommentText(rest)|;
    var t := [s[0]] + CommentText(rest);
    assert CommentText(Ch(s[0], rest)) == t;
    assert t == s[..m + 1];
    assert t[0] == s[0] && t[1] == s[1];
  }

  lemma NestedAt(s: string, inner: Comment, rest: Comment)
    requires OpensComment(s) && IsComment(inner, s[2..]) && IsComment(rest, s[2..][|CommentText(inner)|..])
    ensures IsComment(Sub(inner, rest), s)
    ensures |CommentText(Sub(inner, rest))| == 2 + |CommentText(inner)| + |CommentText(rest)|
  {
    var n, m := |CommentText(inner)|, |CommentText(rest)|;
    assert CommentText(Sub(inner, rest)) == "/*" + CommentText(inner) + CommentText(rest);
    FrontParts(s, 2, n, m);
    assert s[..2] == "/*";
  }

  lemma FrontParts(s: string, i: nat, n: nat, m: nat)
    requires i + n + m <= |s|
    ensures s[..i + n + m] == s[..i] + s[i..][..n] + s[i..][n..][..m]
  {
    assert s[i..][..n] == s[i..i + n];
    assert s[i..][n..] == s[i + n..];
    assert s[i + n..][..m] == s[i + n..i + n + m];
  }

  lemma SoundCharacter(s: string, depth: nat, rest: Comment)
    requires depth > 0 && s != "" && !OpensComment(s) && !ClosesComment(s)
    requires IsComment(rest, s[1..]) && ClosesOne(s[1..], depth, |CommentText(rest)|)
    ensures IsComment(Ch(s[0], rest), s) && ClosesOne(s, depth, |CommentText(Ch(s[0], rest))|)
  {
    CharacterAt(s, rest);
    ClosesAfterCharacter(s, depth, |CommentText(rest)|);
  }

  /** The comment a scan closed its innermost level with. */
  lemma {:induction false} CommentSound(s: string, depth: nat) returns (x: Comment)
    requires depth > 0 && CommentLength(s, depth).Some?
    ensures IsComment(x, s) && ClosesOne(s, depth, |CommentText(x)|)
    decreases |s|
  {
    if OpensComment(s) {
      var inside := s[2..];
      var inner := CommentSound(inside, depth + 1);
      var outside := inside[|CommentText(inner)|..];
      var rest := CommentSound(outside, depth);
      x := Sub(inner, rest);
      NestedAt(s, inner, rest);
      NestedStep(inner, rest, depth, outside, inside, s);
    } else if ClosesComment(s) {
      x := End;
    } else {
      var rest := CommentSound(s[1..], depth);
      x := Ch(s[0], rest);
      SoundCharacter(s, depth, rest);
    }
  }

  /** The characters of the comment `s` opens with, or all of them. */
  function BlockCommentLength(s: string): (n: nat)
    requires OpensComment(s)
    ensures 2 <= n <= |s|
  {
    match CommentLength(s[2..], 1) case None => |s| case Some(m) => m + 2
  }

  /** The scan at `index`, inside `depth` comments, still has to find where the
      comment at `start` closes; `whole` is the answer. */
  predicate Scanning(sql: string, start: nat, index: nat, depth: nat, whole: Option<nat>) {
    && start + 2 <= |sql| && start <= index <= |sql|
    && if depth == 0 then index == start && whole == CommentLength(sql[start + 2..], 1)
       else index >= start + 2 && whole == Add(index - start - 2, CommentLength(sql[index..], depth))
  }

  // Whether an opening or a closing mark stands at `index`.
  predicate OpeningAt(sql: string, index: nat) { index + 2 <= |sql| && sql[index] == '/' && sql[index + 1] == '*' }
  predicate ClosingAt(sql: string, index: nat) { index + 2 <= |sql| && sql[index] == '*' && sql[index + 1] == '/' }

  lemma ScanOpens(sql: string, start: nat, index: nat, depth: nat, whole: Option<nat>)
    requires Scanning(sql, start, index, depth, whole) && OpeningAt(sql, index)
    ensures Scanning(sql, start, index + 2, depth + 1, whole)
  {
    assert sql[index..][2..] == sql[index + 2..];
  }

  lemma ScanCloses(sql: string, start: nat, index: nat, depth: nat, whole: Option<nat>)
    requires Scanning(sql, start, index, depth, whole) && depth > 0 && ClosingAt(sql, index)
    ensures if depth == 1 then whole == Some(index - start) else Scanning(sql, start, index + 2, depth - 1, whole)
  {
    assert sql[index..][2..] == sql[index + 2..];
  }

  lemma ScanPasses(sql: string, start: nat, index: nat, depth: nat, whole: Option<nat>)
    requires Scanning(sql, start, index, depth, whole) && depth > 0 && index < |sql|
    requires !OpeningAt(sql, index) && !ClosingAt(sql, index)
    ensures Scanning(sql, start, index + 1, depth, whole)
  {
    assert sql[index..][1..] == sql[index + 1..];
  }

  lemma ScanEnds(sql: string, start: nat, depth: nat, whole: Option<nat>)
    requires Scanning(sql, start, |sql|, depth, whole) && depth > 0
    ensures whole.None?
  {
  }

  lemma WholeIs(sql: string, start: nat, whole: Option<nat>)
    requires start <= |sql| && OpensComment(sql[start..]) && whole == CommentLength(sql[start + 2..], 1)
    ensures whole.None? ==> BlockCommentLength(sql[start..]) == |sql| - start
    ensures whole.Some? ==> BlockCommentLength(sql[start..]) == whole.value + 2
  {
    assert sql[start..][2..] == sql[start + 2..];
  }

  /** `_block_comment_end`. */
  method BlockCommentEnd(sql: string, start: nat) returns (end: nat)
    requires start <= |sql| && OpensComment(sql[start..])
    ensures end == start + BlockCommentLength(sql[start..])
  {
    ghost var whole := CommentLength(sql[start + 2..], 1);
    WholeIs(sql, start, whole);
    var depth, index := 0, start;
    while index < |sql|
      invariant depth >= 0 && start <= index && Scanning(sql, start, index, depth, whole)
    {
      if OpeningAt(sql, index) {
        ScanOpens(sql, start, index, depth, whole);
        depth, index := depth + 1, index + 2;
      } else if ClosingAt(sql, index) {
        ScanCloses(sql, start, index, depth, whole);
        depth, index := depth - 1, index + 2;
        if depth == 0 { return index; }
      } else {
        ScanPasses(sql, start, index, depth, whole);
        index := index + 1;
      }
    }
    ScanEnds(sql, start, depth, whole);
    end := |sql|;
  }

  /** A comment with no mark inside it closes where it seems to. */
  lemma {:induction false} FlatCommentCloses(body: string, rest: string)
    requires '*' !in body && '/' !in body
    ensures CommentLength(body + "*/" + rest, 1) == Some(|body| + 2) && Find(body + "*/" + rest, "*/") == Some(|body|)
  {
    var s := body + "*/" + rest;
    if body == "" {
      assert s[0] == '*' && s[1] == '/' && s[..2] == "*/";
    } else {
      FlatCommentCloses(body[1..], rest);
      assert s[0] == body[0] && s[1..] == body[1..] + "*/" + rest;
    }
  }
}
