/** `read_statement`: domain SQL, written with `?`, as psycopg takes it. The
    grammar of a statement's regions is given first, without a scanner; the
    scanner is then proved to read exactly that grammar. */
module StatementReader {
  import opened Alphabets
  import opened Options
  import opened SqlRegions

  /** Python's `str.isalpha` and `str.isdigit`, whatever the Unicode tables. */
  datatype Unicode = Unicode(alpha: char -> bool, digit: char -> bool)

  datatype Statement = Statement(psycopg: string, placeholders: nat)

  // --- the characters around a region ---

  predicate TagCharacter(c: char) {
    'A' <= c <= 'Z' || 'a' <= c <= 'z' || '0' <= c <= '9' || c == '_' || c as int >= 0x80
  }

  predicate TagStart(c: char) { TagCharacter(c) && !('0' <= c <= '9') }

  predicate IdentifierBefore(before: string) {
    before != "" && (var c := before[|before| - 1]; TagCharacter(c) || c == '$')
  }

  /** An `E` that starts a word stands before the quote. */
  predicate EscapeBefore(before: string) {
    && before != "" && before[|before| - 1] in {'E', 'e'}
    && !IdentifierBefore(before[..|before| - 1])
  }

  /** The characters of a name, and of a dollar quote's tag, spelled out. */
  lemma CharactersAre(c: char)
    ensures TagCharacter(c) <==> c in UPPER || c in LOWER || c in DIGITS || c == '_' || c as int >= 0x80
    ensures TagStart(c) <==> c in UPPER || c in LOWER || c == '_' || c as int >= 0x80
    ensures IdentifierBefore([c]) <==> TagCharacter(c) || c == '$'
  {
    UpperIs(c);
    LowerIs(c);
    DigitIs(c);
  }

  /** A quote opens an escape string exactly when an E stands before it, in either
      case, that is not the end of a longer name. */
  lemma EscapeIff(before: string, e: char)
    ensures EscapeBefore(before + [e]) <==>
      (e == 'E' || e == 'e') && (before == "" || !IdentifierBefore([before[|before| - 1]]))
    ensures !EscapeBefore("")
  {
    assert (before + [e])[..|before|] == before;
  }

  predicate IsTag(t: string) {
    && |t| >= 2 && t[0] == '$' && t[|t| - 1] == '$'
    && (forall k :: 1 <= k < |t| - 1 ==> TagCharacter(t[k]))
    && (|t| > 2 ==> TagStart(t[1]))
  }

  // --- the grammar ---

  datatype Region =
    | Placeholder
    | LineComment(comment: string)
    | BlockComment(comment: string)
    | Literal(quoted: string)
    | QuotedName(quoted: string)
    | DollarQuote(tag: string, body: string)
    | Cast
    | Plain(c: char)

  function RegionText(r: Region): (t: string)
  {
    match r
    case Placeholder => "?"
    case LineComment(comment) => comment
    case BlockComment(comment) => comment
    case Literal(quoted) => quoted
    case QuotedName(quoted) => quoted
    case DollarQuote(tag, body) => tag + body
    case Cast => "::"
    case Plain(c) => [c]
  }

  predicate QuotedPrefix(x: Quoted, s: string, quote: char, backslash: bool) {
    var n := |QuotedText(x, quote)|;
    n <= |s| && QuotedText(x, quote) == s[..n] && QuotedFits(x, quote, backslash, s[n..])
  }

  /** `t` is quoted whole, or it is all that is left and never closes. */
  ghost predicate IsQuotedRegion(t: string, quote: char, backslash: bool, after: string) {
    && t != "" && t[0] == quote
    && if exists x :: QuotedPrefix(x, t[1..] + after, quote, backslash)
       then exists x :: QuotedFits(x, quote, backslash, after) && t[1..] == QuotedText(x, quote)
       else after == ""
  }

  ghost predicate IsBlockComment(t: string, after: string) {
    && OpensComment(t)
    && if exists x :: IsComment(x, t[2..] + after)
       then exists x :: CommentFits(x) && t[2..] == CommentText(x)
       else after == ""
  }

  predicate IsLineComment(t: string, after: string) {
    && |t| >= 2 && t[0] == '-' && t[1] == '-'
    && '\n' !in t[..|t| - 1]
    && (t[|t| - 1] == '\n' || after == "")
  }

  /** The body runs to the first repetition of its tag, or to the end. */
  predicate IsDollarQuote(tag: string, body: string, after: string) {
    && IsTag(tag)
    && match Find(body + after, tag)
       case Some(n) => |body| == n + |tag|
       case None => after == ""
  }

  /** Whether `r` may stand after `before` and in front of `after`. */
  ghost predicate Fits(u: Unicode, before: string, r: Region, after: string) {
    match r
    case Placeholder => !(after != "" && (after[0] == '|' || after[0] == '&' || u.digit(after[0])))
    case LineComment(t) => IsLineComment(t, after)
    case BlockComment(t) => IsBlockComment(t, after)
    case Literal(t) => IsQuotedRegion(t, '\'', EscapeBefore(before), after)
    case QuotedName(t) => IsQuotedRegion(t, '"', false, after)
    case DollarQuote(tag, body) => !IdentifierBefore(before) && IsDollarQuote(tag, body, after)
    case Cast => true
    case Plain(c) =>
      && c != '?' && c != '\'' && c != '"'
      && !(c == '-' && after != "" && after[0] == '-')
      && !OpensComment([c] + after)
      && !(c == ':' && after != "" && (after[0] == ':' || after[0] == '_' || u.alpha(after[0])))
      && (!IdentifierBefore(before) ==> !exists tag :: IsTag(tag) && tag <= [c] + after)
  }

  function Joined(regions: seq<Region>): string {
    if regions == [] then "" else RegionText(regions[0]) + Joined(regions[1..])
  }

  /** `s`, read after `before`, is made of these regions. */
  ghost predicate Reads(u: Unicode, before: string, regions: seq<Region>, s: string)
    decreases regions
  {
    if regions == [] then s == ""
    else
      var n := |RegionText(regions[0])|;
      && n <= |s| && RegionText(regions[0]) == s[..n]
      && Fits(u, before, regions[0], s[n..])
      && Reads(u, before + s[..n], regions[1..], s[n..])
  }

  // --- what psycopg is sent ---

  /** Python's `replace("%", "%%")`. */
  function Doubled(t: string): string {
    if t == "" then "" else (if t[0] == '%' then "%%" else [t[0]]) + Doubled(t[1..])
  }

  function Sent(r: Region): string {
    if r.Placeholder? then "%s" else Doubled(RegionText(r))
  }

  function AllSent(regions: seq<Region>): string {
    if regions == [] then "" else Sent(regions[0]) + AllSent(regions[1..])
  }

  function Placeholders(regions: seq<Region>): nat {
    if regions == [] then 0 else (if regions[0].Placeholder? then 1 else 0) + Placeholders(regions[1..])
  }

  /** What psycopg makes of its text: a parameter's place, or a character for the
      server. */
  datatype Token = Param | Character(c: char)

  /** psycopg's reading of its text: `%s` is a parameter, `%%` a percent sign, no
      other `%` may stand there, and anything else is itself. */
  function PsycopgReads(t: string): Option<seq<Token>> {
    if t == "" then Some([])
    else if t[0] != '%' then Prepend(Character(t[0]), PsycopgReads(t[1..]))
    else if |t| >= 2 && t[1] == '%' then Prepend(Character('%'), PsycopgReads(t[2..]))
    else if |t| >= 2 && t[1] == 's' then Prepend(Param, PsycopgReads(t[2..]))
    else None
  }

  function Prepend(token: Token, rest: Option<seq<Token>>): Option<seq<Token>> {
    match rest case None => None case Some(tokens) => Some([token] + tokens)
  }

  function Characters(t: string): seq<Token> {
    if t == "" then [] else [Character(t[0])] + Characters(t[1..])
  }

  /** The regions with a parameter at each placeholder, and every other region's
      characters as they are. */
  function Tokens(regions: seq<Region>): seq<Token> {
    if regions == [] then []
    else (if regions[0].Placeholder? then [Param] else Characters(RegionText(regions[0]))) + Tokens(regions[1..])
  }

  function Params(tokens: seq<Token>): nat {
    if tokens == [] then 0 else (if tokens[0].Param? then 1 else 0) + Params(tokens[1..])
  }

  // --- the scanner, one region at a time ---

  /** How many characters of a dollar quote's tag may come first in `s`. */
  function TagRun(s: string): (n: nat)
    ensures n <= |s|
  {
    if s == "" || !TagCharacter(s[0]) then 0 else 1 + TagRun(s[1..])
  }

  lemma TagRunIs(s: string)
    ensures var n := TagRun(s);
      (forall k :: 0 <= k < n ==> TagCharacter(s[k])) && (n < |s| ==> !TagCharacter(s[n]))
  {
    if s != "" && TagCharacter(s[0]) {
      TagRunIs(s[1..]);
    }
  }

  /** The length of the dollar quote's tag `s` begins with. */
  function TagLength(s: string): (r: Option<nat>)
    ensures r.Some? ==> 2 <= r.value <= |s| && IsTag(s[..r.value])
  {
    if s == "" || s[0] != '$' then None
    else
      var n := TagRun(s[1..]);
      TagRunIs(s[1..]);
      if 1 + n < |s| && s[1 + n] == '$' && (n > 0 ==> TagStart(s[1])) then Some(n + 2) else None
  }

  function LineCommentLength(s: string): (n: nat)
    ensures n <= |s|
  {
    match Find(s, "\n") case None => |s| case Some(newline) => newline + 1
  }

  function QuotedRegionLength(s: string, quote: char, backslash: bool): (n: nat)
    requires s != ""
    ensures 1 <= n <= |s|
  {
    match QuotedLength(s[1..], quote, backslash) case None => |s| case Some(m) => m + 1
  }

  function DollarBodyLength(rest: string, tag: string): (n: nat)
    ensures n <= |rest|
  {
    match Find(rest, tag) case None => |rest| case Some(close) => close + |tag|
  }

  predicate StartsLineComment(s: string) { |s| >= 2 && s[0] == '-' && s[1] == '-' }

  /** How far the next region reaches, or None for a shape that is refused. */
  function StepLength(u: Unicode, before: string, s: string): (r: Option<nat>)
    requires s != ""
  {
    if StartsLineComment(s) then Some(LineCommentLength(s))
    else if OpensComment(s) then Some(BlockCommentLength(s))
    else if s[0] == '\'' then Some(QuotedRegionLength(s, '\'', EscapeBefore(before)))
    else if s[0] == '"' then Some(QuotedRegionLength(s, '"', false))
    else if s[0] == '$' && !IdentifierBefore(before) && TagLength(s).Some? then
      var n := TagLength(s).value;
      Some(n + DollarBodyLength(s[n..], s[..n]))
    else if s[0] == ':' && |s| >= 2 && s[1] == ':' then Some(2)
    else if s[0] == ':' && |s| >= 2 && (u.alpha(s[1]) || s[1] == '_') then None
    else if s[0] == '?' && |s| >= 2 && (s[1] == '|' || s[1] == '&' || u.digit(s[1])) then None
    else Some(1)
  }

  /** The next region, or None for a shape the two stores read differently. */
  function Step(u: Unicode, before: string, s: string): (r: Option<Region>)
    requires s != ""
    ensures r.Some? ==> var t := RegionText(r.value); t != "" && |t| <= |s| && t == s[..|t|]
    ensures StepLength(u, before, s) == match r case None => None case Some(region) => Some(|RegionText(region)|)
    ensures r.Some? ==> (r.value.Placeholder? <==> s[0] == '?')
  {
    if StartsLineComment(s) then Some(LineComment(s[..LineCommentLength(s)]))
    else if OpensComment(s) then Some(BlockComment(s[..BlockCommentLength(s)]))
    else if s[0] == '\'' then Some(Literal(s[..QuotedRegionLength(s, '\'', EscapeBefore(before))]))
    else if s[0] == '"' then Some(QuotedName(s[..QuotedRegionLength(s, '"', false)]))
    else if s[0] == '$' && !IdentifierBefore(before) && TagLength(s).Some? then
      var n := TagLength(s).value;
      var m := DollarBodyLength(s[n..], s[..n]);
      TwoParts(s, n, m);
      Some(DollarQuote(s[..n], s[n..][..m]))
    else if s[0] == ':' && |s| >= 2 && s[1] == ':' then Some(Cast)
    else if s[0] == ':' && |s| >= 2 && (u.alpha(s[1]) || s[1] == '_') then None
    else if s[0] == '?' && |s| >= 2 && (s[1] == '|' || s[1] == '&' || u.digit(s[1])) then None
    else if s[0] == '?' then Some(Placeholder)
    else Some(Plain(s[0]))
  }

  /** The whole scan, from after `before`. */
  function Scan(u: Unicode, before: string, s: string): Option<seq<Region>>
    decreases |s|
  {
    if s == "" then Some([])
    else
      match Step(u, before, s)
      case None => None
      case Some(r) => Cons(r, Scan(u, before + s[..|RegionText(r)|], s[|RegionText(r)|..]))
  }

  function Cons(r: Region, rest: Option<seq<Region>>): Option<seq<Region>> {
    match rest case None => None case Some(regions) => Some([r] + regions)
  }

  function Read(u: Unicode, s: string): Option<Statement> {
    match Scan(u, "", s)
    case None => None
    case Some(regions) => Some(Statement(AllSent(regions), Placeholders(regions)))
  }

  // --- the scanner reads the grammar ---

  lemma QuotedIs(s: string, quote: char, backslash: bool, n: nat)
    requires s != "" && s[0] == quote && quote != '\\' && 1 <= n <= |s|
    ensures IsQuotedRegion(s[..n], quote, backslash, s[n..]) <==> n == QuotedRegionLength(s, quote, backslash)
  {
    var rest := s[1..];
    assert s[..n][1..] + s[n..] == rest;
    forall x | QuotedPrefix(x, rest, quote, backslash)
      ensures QuotedLength(rest, quote, backslash) == Some(|QuotedText(x, quote)|)
    {
      var m := |QuotedText(x, quote)|;
      QuotedComplete(x, quote, backslash, rest[m..]);
      assert QuotedText(x, quote) + rest[m..] == rest;
    }
    if QuotedLength(rest, quote, backslash).Some? {
      var m := QuotedLength(rest, quote, backslash).value;
      var x := QuotedSound(rest, quote, backslash);
      assert QuotedPrefix(x, rest, quote, backslash);
      if n == m + 1 {
        assert s[..n][1..] == rest[..m] && s[n..] == rest[m..];
      }
      forall y | QuotedFits(y, quote, backslash, s[n..]) && s[..n][1..] == QuotedText(y, quote) ensures n == m + 1 {
        assert rest[..n - 1] == s[..n][1..] && rest[n - 1..] == s[n..];
        assert QuotedPrefix(y, rest, quote, backslash);
      }
    }
  }

  lemma BlockCommentIs(s: string, n: nat)
    requires OpensComment(s) && 2 <= n <= |s|
    ensures IsBlockComment(s[..n], s[n..]) <==> n == BlockCommentLength(s)
  {
    var rest := s[2..];
    assert s[..n][2..] + s[n..] == rest;
    forall x | IsComment(x, rest) ensures CommentLength(rest, 1) == Some(|CommentText(x)|) {
      var m := |CommentText(x)|;
      CommentComplete(x, 1, rest[m..]);
      assert CommentText(x) + rest[m..] == rest;
    }
    if CommentLength(rest, 1).Some? {
      var x := CommentSound(rest, 1);
      var m := |CommentText(x)|;
      assert IsComment(x, rest);
      if n == m + 2 {
        assert s[..n][2..] == rest[..m];
      }
      forall y | CommentFits(y) && s[..n][2..] == CommentText(y) ensures n == m + 2 {
        assert rest[..n - 2] == s[..n][2..];
        assert IsComment(y, rest);
      }
    }
  }

  /** Where the first line feed is, by characters. */
  lemma FirstLineFeed(s: string)
    ensures var f := Find(s, "\n");
      && (f.Some? ==> f.value < |s| && s[f.value] == '\n')
      && (forall k :: 0 <= k < (if f.Some? then f.value else |s|) ==> s[k] != '\n')
  {
    var f := Find(s, "\n");
    FindIs(s, "\n");
    if f.Some? { assert StartsWith(s[f.value..], "\n") && s[f.value..][0] == s[f.value]; }
    forall k | 0 <= k < (if f.Some? then f.value else |s|) ensures s[k] != '\n' {
      assert !StartsWith(s[k..], "\n") && s[k..][0] == s[k];
      assert s[k..][..1] == [s[k]];
    }
  }

  lemma LineCommentIs(s: string, n: nat)
    requires StartsLineComment(s) && 1 <= n <= |s|
    ensures IsLineComment(s[..n], s[n..]) <==> n == LineCommentLength(s)
  {
    var f, t := Find(s, "\n"), s[..n];
    FirstLineFeed(s);
    assert t[n - 1] == s[n - 1] && forall k :: 0 <= k < n - 1 ==> t[..n - 1][k] == s[k];
    if f.Some? && n > f.value + 1 { assert t[..n - 1][f.value] == '\n'; }
  }

  lemma TagIsThePrefix(s: string, tag: string)
    requires IsTag(tag) && tag <= s
    ensures TagLength(s) == Some(|tag|)
  {
    var n := TagRun(s[1..]);
    TagRunIs(s[1..]);
    assert forall k :: 1 <= k < |tag| ==> s[1..][k - 1] == tag[k];
    assert !TagCharacter('$');
  }

  lemma DollarQuoteIs(rest: string, tag: string, m: nat)
    requires IsTag(tag) && m <= |rest|
    ensures IsDollarQuote(tag, rest[..m], rest[m..]) <==> m == DollarBodyLength(rest, tag)
  {
    assert rest[..m] + rest[m..] == rest;
  }

  /** The dollar quote a scanner reads at the start of `s`. */
  predicate ReadsDollar(before: string, s: string, tag: string, body: string)
    requires s != ""
  {
    && s[0] == '$' && !IdentifierBefore(before) && TagLength(s).Some?
    && tag == s[..TagLength(s).value]
    && body == s[|tag|..][..DollarBodyLength(s[|tag|..], tag)]
  }

  lemma StepReadsDollar(u: Unicode, before: string, s: string, tag: string, body: string)
    requires s != ""
    ensures Step(u, before, s) == Some(DollarQuote(tag, body)) <==> ReadsDollar(before, s, tag, body)
  {
  }

  lemma ReadsDollarIs(before: string, s: string, rest: string, tag: string, body: string)
    requires s != "" && tag <= s && rest == s[|tag|..] && body <= rest
    ensures ReadsDollar(before, s, tag, body)
      <==> !IdentifierBefore(before) && IsDollarQuote(tag, body, rest[|body|..])
  {
    if IsTag(tag) {
      TagIsThePrefix(s, tag);
      assert body == rest[..|body|];
      DollarQuoteIs(rest, tag, |body|);
      SamePrefix(rest, |body|, DollarBodyLength(rest, tag));
    }
  }

  lemma FitsDollar(u: Unicode, before: string, tag: string, body: string, after: string)
    ensures Fits(u, before, DollarQuote(tag, body), after)
      <==> !IdentifierBefore(before) && IsDollarQuote(tag, body, after)
  {
  }

  lemma DollarParts(s: string, tag: string, body: string) returns (rest: string, after: string)
    requires tag + body <= s
    ensures tag <= s && rest == s[|tag|..] && body <= rest && after == rest[|body|..] && after == s[|tag + body|..]
  {
    PartsOf(s, tag, body);
    rest, after := s[|tag|..], s[|tag| + |body|..];
  }

  lemma DollarStepIs(u: Unicode, before: string, s: string, tag: string, body: string)
    requires s != "" && tag + body <= s
    ensures Step(u, before, s) == Some(DollarQuote(tag, body))
      <==> Fits(u, before, DollarQuote(tag, body), s[|tag + body|..])
  {
    var rest, after := DollarParts(s, tag, body);
    StepReadsDollar(u, before, s, tag, body);
    ReadsDollarIs(before, s, rest, tag, body);
    FitsDollar(u, before, tag, body, after);
  }

  lemma PlainStepIs(u: Unicode, before: string, s: string)
    requires s != ""
    ensures Step(u, before, s) == Some(Plain(s[0])) <==> Fits(u, before, Plain(s[0]), s[1..])
  {
    assert s == [s[0]] + s[1..];
    forall tag | IsTag(tag) && tag <= s ensures TagLength(s).Some? {
      TagIsThePrefix(s, tag);
    }
    if TagLength(s).Some? {
      assert IsTag(s[..TagLength(s).value]) && s[..TagLength(s).value] <= s;
    }
  }

  /** One step of the scanner reads `r` exactly when the grammar lets `r`
      stand there. */
  lemma StepIs(u: Unicode, before: string, s: string, r: Region)
    requires s != "" && RegionText(r) <= s
    ensures Step(u, before, s) == Some(r) <==> Fits(u, before, r, s[|RegionText(r)|..])
  {
    var n := |RegionText(r)|;
    assert RegionText(r) == s[..n];
    match r
    case LineComment(t) =>
      if StartsLineComment(s) && n > 0 {
        LineCommentIs(s, n);
        SamePrefix(s, n, LineCommentLength(s));
      }
    case BlockComment(t) =>
      if OpensComment(s) && n >= 2 {
        BlockCommentIs(s, n);
        SamePrefix(s, n, BlockCommentLength(s));
      }
    case Literal(t) =>
      if s[0] == '\'' && n > 0 {
        QuotedIs(s, '\'', EscapeBefore(before), n);
        SamePrefix(s, n, QuotedRegionLength(s, '\'', EscapeBefore(before)));
      }
    case QuotedName(t) =>
      if s[0] == '"' && n > 0 {
        QuotedIs(s, '"', false, n);
        SamePrefix(s, n, QuotedRegionLength(s, '"', false));
      }
    case DollarQuote(tag, body) => DollarStepIs(u, before, s, tag, body);
    case Plain(c) => PlainStepIs(u, before, s);
    case _ =>
  }

  lemma SamePrefix(s: string, n: nat, m: nat)
    requires n <= |s| && m <= |s|
    ensures s[..n] == s[..m] <==> n == m
  {
    assert |s[..n]| == n && |s[..m]| == m;
  }

  lemma FirstRegion(u: Unicode, before: string, regions: seq<Region>, s: string)
    requires regions != [] && Reads(u, before, regions, s)
    ensures var n := |RegionText(regions[0])|;
      && 0 < n <= |s| && Step(u, before, s) == Some(regions[0])
      && RegionText(regions[0]) == s[..n]
      && Reads(u, before + s[..n], regions[1..], s[n..])
  {
    FitsIsNotEmpty(u, before, regions[0], s[|RegionText(regions[0])|..]);
    StepIs(u, before, s, regions[0]);
  }

  lemma ScanAfterStep(u: Unicode, before: string, s: string, r: Region, rest: seq<Region>)
    requires s != "" && Step(u, before, s) == Some(r)
    requires Scan(u, before + s[..|RegionText(r)|], s[|RegionText(r)|..]) == Some(rest)
    ensures Scan(u, before, s) == Some([r] + rest)
  {
  }

  /** The scanner finds the regions of any text made of them. */
  lemma {:induction false} ScansTheGrammar(u: Unicode, before: string, regions: seq<Region>, s: string)
    requires Reads(u, before, regions, s)
    ensures Scan(u, before, s) == Some(regions)
    decreases regions
  {
    if regions != [] {
      FirstRegion(u, before, regions, s);
      var n := |RegionText(regions[0])|;
      ScansTheGrammar(u, before + s[..n], regions[1..], s[n..]);
      ScanAfterStep(u, before, s, regions[0], regions[1..]);
      assert regions == [regions[0]] + regions[1..];
    }
  }

  lemma FitsIsNotEmpty(u: Unicode, before: string, r: Region, after: string)
    requires Fits(u, before, r, after)
    ensures RegionText(r) != ""
  {
  }

  lemma ReadsOneMore(u: Unicode, before: string, s: string, rest: seq<Region>)
    requires s != "" && Step(u, before, s).Some?
    requires var n := |RegionText(Step(u, before, s).value)|; Reads(u, before + s[..n], rest, s[n..])
    ensures Reads(u, before, [Step(u, before, s).value] + rest, s)
  {
    var r := Step(u, before, s).value;
    StepIs(u, before, s, r);
    assert ([r] + rest)[1..] == rest;
  }

  /** The regions the scanner finds are regions of the grammar. */
  lemma {:induction false} ScanIsOfTheGrammar(u: Unicode, before: string, s: string)
    requires Scan(u, before, s).Some?
    ensures Reads(u, before, Scan(u, before, s).value, s)
    decreases |s|
  {
    if s != "" {
      var n := |RegionText(Step(u, before, s).value)|;
      ScanIsOfTheGrammar(u, before + s[..n], s[n..]);
      ReadsOneMore(u, before, s, Scan(u, before + s[..n], s[n..]).value);
    }
  }

  /** The scanner accepts exactly the texts of the grammar, and sends their
      regions, placeholder by placeholder. */
  lemma ReadsExactlyTheGrammar(u: Unicode, s: string)
    ensures Read(u, s).Some? <==> exists regions :: Reads(u, "", regions, s)
    ensures forall regions :: Reads(u, "", regions, s) ==>
      Read(u, s) == Some(Statement(AllSent(regions), Placeholders(regions)))
  {
    forall regions | Reads(u, "", regions, s) ensures Scan(u, "", s) == Some(regions) {
      ScansTheGrammar(u, "", regions, s);
    }
    if Scan(u, "", s).Some? {
      ScanIsOfTheGrammar(u, "", s);
      assert exists found :: Reads(u, "", found, s);
    }
  }

  /** A text has one reading only. */
  lemma OneReading(u: Unicode, a: seq<Region>, b: seq<Region>, s: string)
    requires Reads(u, "", a, s) && Reads(u, "", b, s)
    ensures a == b
  {
    ScansTheGrammar(u, "", a, s);
    ScansTheGrammar(u, "", b, s);
  }

  // --- what psycopg makes of it ---

  lemma ReadsOneCharacter(c: char, tail: string)
    ensures PsycopgReads((if c == '%' then "%%" else [c]) + tail) == Prepend(Character(c), PsycopgReads(tail))
  {
    if c == '%' {
      assert ("%%" + tail)[2..] == tail;
    } else {
      assert ([c] + tail)[1..] == tail;
    }
  }

  lemma {:induction false} ReadsDoubled(t: string, rest: string)
    requires PsycopgReads(rest).Some?
    ensures PsycopgReads(Doubled(t) + rest) == Some(Characters(t) + PsycopgReads(rest).value)
  {
    var read := PsycopgReads(rest).value;
    if t == "" {
      assert Doubled(t) + rest == rest && Characters(t) + read == read;
    } else {
      var first := if t[0] == '%' then "%%" else [t[0]];
      ReadsDoubled(t[1..], rest);
      ReadsOneCharacter(t[0], Doubled(t[1..]) + rest);
      assert Doubled(t) + rest == first + (Doubled(t[1..]) + rest);
      assert Characters(t) + read == [Character(t[0])] + (Characters(t[1..]) + read);
    }
  }

  /** psycopg reads the regions back: a parameter exactly at each placeholder, and
      every character of the others. */
  lemma {:induction false} PsycopgReadsBack(regions: seq<Region>)
    ensures PsycopgReads(AllSent(regions)) == Some(Tokens(regions))
  {
    if regions != [] {
      PsycopgReadsBack(regions[1..]);
      var rest := AllSent(regions[1..]);
      if regions[0].Placeholder? {
        var whole := "%s" + rest;
        assert whole[0] == '%' && whole[1] == 's' && whole[2..] == rest;
      } else {
        ReadsDoubled(RegionText(regions[0]), rest);
      }
    }
  }

  lemma {:induction false} ParamsOfAll(a: seq<Token>, b: seq<Token>)
    ensures Params(a + b) == Params(a) + Params(b)
  {
    if a == [] {
      assert a + b == b;
    } else {
      ParamsOfAll(a[1..], b);
      assert (a + b)[1..] == a[1..] + b && (a + b)[0] == a[0];
    }
  }

  lemma {:induction false} NoParams(t: string)
    ensures Params(Characters(t)) == 0 && |Characters(t)| == |t|
    ensures forall k :: 0 <= k < |t| ==> Characters(t)[k] == Character(t[k])
  {
    if t != "" {
      NoParams(t[1..]);
      var rest := Characters(t[1..]);
      assert Characters(t)[0] == Character(t[0]) && Characters(t)[1..] == rest;
    }
  }

  lemma {:induction false} ParamsArePlaceholders(regions: seq<Region>)
    ensures Params(Tokens(regions)) == Placeholders(regions)
  {
    if regions != [] {
      ParamsArePlaceholders(regions[1..]);
      var r := regions[0];
      var first := if r.Placeholder? then [Param] else Characters(RegionText(r));
      ParamsOfAll(first, Tokens(regions[1..]));
      if r.Placeholder? { assert [Param][1..] == []; } else { NoParams(RegionText(r)); }
    }
  }

  /** The token stands for the character: a parameter for a `?`, else itself. */
  predicate StandsFor(token: Token, c: char) { if token.Param? then c == '?' else token.c == c }

  /** The regions' tokens stand for their text, one for each character. */
  lemma {:induction false} TokensStandForText(regions: seq<Region>)
    ensures |Tokens(regions)| == |Joined(regions)|
    ensures forall k :: 0 <= k < |Joined(regions)| ==> StandsFor(Tokens(regions)[k], Joined(regions)[k])
  {
    if regions != [] {
      var t := RegionText(regions[0]);
      var first := if regions[0].Placeholder? then [Param] else Characters(t);
      var tokens, text := Tokens(regions[1..]), Joined(regions[1..]);
      TokensStandForText(regions[1..]);
      NoParams(t);
      forall k | 0 <= k < |t + text| ensures StandsFor((first + tokens)[k], (t + text)[k]) {
        if k >= |t| { assert StandsFor(tokens[k - |t|], text[k - |t|]); }
      }
    }
  }

  lemma {:induction false} JoinedIsTheText(u: Unicode, before: string, regions: seq<Region>, s: string)
    requires Reads(u, before, regions, s)
    ensures Joined(regions) == s
    decreases regions
  {
    if regions != [] {
      var n := |RegionText(regions[0])|;
      JoinedIsTheText(u, before + s[..n], regions[1..], s[n..]);
    }
  }

  /** Every accepted text reaches the server as it was written, with a parameter
      for exactly each of its placeholders. */
  lemma RoundTrip(u: Unicode, s: string)
    requires Read(u, s).Some?
    ensures var tokens := PsycopgReads(Read(u, s).value.psycopg);
      && tokens.Some? && |tokens.value| == |s| && (forall k :: 0 <= k < |s| ==> StandsFor(tokens.value[k], s[k]))
      && Params(tokens.value) == Read(u, s).value.placeholders
      && forall regions :: Reads(u, "", regions, s) ==> tokens.value == Tokens(regions)
  {
    var regions := Scan(u, "", s).value;
    ScanIsOfTheGrammar(u, "", s);
    PsycopgReadsBack(regions);
    JoinedIsTheText(u, "", regions, s);
    TokensStandForText(regions);
    ParamsArePlaceholders(regions);
    forall others | Reads(u, "", others, s) ensures Tokens(others) == Tokens(regions) {
      OneReading(u, regions, others, s);
    }
  }

  // --- what is refused, and what hides a question mark, on the text itself ---

  /** The pair of characters two stores would read differently. */
  predicate Ambiguous(u: Unicode, c: char, next: char) {
    || (c == ':' && (u.alpha(next) || next == '_'))
    || (c == '?' && (next == '|' || next == '&' || u.digit(next)))
  }

  /** A text is refused only for a named or a numbered placeholder or one of the
      two operators. */
  lemma {:induction false} RefusedOnlyForAPair(u: Unicode, before: string, s: string)
    requires forall k :: 0 <= k < |s| - 1 ==> !Ambiguous(u, s[k], s[k + 1])
    ensures Scan(u, before, s).Some?
    decreases |s|
  {
    if s != "" {
      if |s| >= 2 { assert !Ambiguous(u, s[0], s[1]); }
      assert Step(u, before, s).Some?;
      var n := |RegionText(Step(u, before, s).value)|;
      var rest := s[n..];
      assert forall k :: 0 <= k < |rest| ==> rest[k] == s[n + k];
      RefusedOnlyForAPair(u, before + s[..n], rest);
    }
  }

  predicate Ordinary(c: char) { c !in "'\"$:-/" }

  function Simply(s: string): seq<Region> {
    if s == "" then [] else [if s[0] == '?' then Placeholder else Plain(s[0])] + Simply(s[1..])
  }

  /** Where nothing is quoted and nothing commented every `?` is a placeholder. */
  lemma {:induction false} OrdinaryText(u: Unicode, before: string, s: string)
    requires forall k :: 0 <= k < |s| ==> Ordinary(s[k])
    requires forall k :: 0 <= k < |s| - 1 ==> !Ambiguous(u, s[k], s[k + 1])
    ensures Scan(u, before, s) == Some(Simply(s))
    decreases |s|
  {
    if s != "" {
      assert Ordinary(s[0]) && (|s| >= 2 ==> !Ambiguous(u, s[0], s[1]));
      var r := if s[0] == '?' then Placeholder else Plain(s[0]);
      assert Step(u, before, s) == Some(r);
      var rest := s[1..];
      assert forall k :: 0 <= k < |rest| ==> rest[k] == s[k + 1];
      OrdinaryText(u, before + s[..1], rest);
    }
  }

  lemma {:induction false} ClosesAt(body: string, quote: char, rest: string)
    requires quote !in body && (rest != "" ==> rest[0] != quote)
    ensures QuotedLength(body + [quote] + rest, quote, false) == Some(|body| + 1)
  {
    var s := body + [quote] + rest;
    if body == "" {
      assert s[0] == quote && (|s| >= 2 ==> s[1] == rest[0]);
    } else {
      ClosesAt(body[1..], quote, rest);
      assert s[0] == body[0] && s[0] != quote && s[1..] == body[1..] + [quote] + rest;
    }
  }

  /** Inside quotes nothing is one, */
  lemma QuotesHide(u: Unicode, body: string, rest: string)
    ensures '\'' !in body && (rest != "" ==> rest[0] != '\'') ==>
      Step(u, "", "'" + body + "'" + rest) == Some(Literal("'" + body + "'"))
    ensures '"' !in body && (rest != "" ==> rest[0] != '"') ==>
      Step(u, "", "\"" + body + "\"" + rest) == Some(QuotedName("\"" + body + "\""))
  {
    if '\'' !in body && (rest != "" ==> rest[0] != '\'') {
      QuotedHides("'", '\'', body, rest);
    }
    if '"' !in body && (rest != "" ==> rest[0] != '"') {
      QuotedHides("\"", '"', body, rest);
    }
  }

  lemma QuotedHides(open: string, quote: char, body: string, rest: string)
    requires open == [quote] && quote !in body && (rest != "" ==> rest[0] != quote)
    ensures var s := open + body + open + rest;
      QuotedRegionLength(s, quote, false) == |body| + 2 && s[..|body| + 2] == open + body + open
  {
    var s := open + body + open + rest;
    assert s[1..] == body + [quote] + rest;
    ClosesAt(body, quote, rest);
  }

  /** nor in a comment to the end of its line, */
  lemma LineCommentHides(u: Unicode, before: string, body: string, rest: string)
    requires '\n' !in body
    ensures Step(u, before, "--" + body + "\n" + rest) == Some(LineComment("--" + body + "\n"))
  {
    var s := "--" + body + "\n" + rest;
    var text := "--" + body + "\n";
    FirstLineFeed(s);
    assert s[|body| + 2] == '\n' && forall k :: 0 <= k < |body| + 2 ==> s[k] == text[k] && s[k] != '\n';
    assert s[..|text|] == text;
  }

  /** nor in a block comment, */
  lemma BlockCommentHides(u: Unicode, before: string, body: string, rest: string)
    requires '*' !in body && '/' !in body
    ensures Step(u, before, "/*" + body + "*/" + rest) == Some(BlockComment("/*" + body + "*/"))
  {
    var s, text := "/*" + body + "*/" + rest, "/*" + body + "*/";
    assert s[2..] == body + "*/" + rest && s[..|text|] == text;
    FlatCommentCloses(body, rest);
  }

  /** nor in a dollar quote. */
  lemma DollarQuoteHides(u: Unicode, body: string, rest: string)
    requires '$' !in body
    ensures Step(u, "", "$$" + body + "$$" + rest) == Some(DollarQuote("$$", body + "$$"))
  {
    var s := "$$" + body + "$$" + rest;
    var inner := body + "$$" + rest;
    assert s[1..][0] == '$' && TagRun(s[1..]) == 0;
    assert s[..2] == "$$" && s[2..] == inner;
    DollarCloses(body, rest);
    assert inner[..|body| + 2] == body + "$$";
  }

  lemma {:induction false} DollarCloses(body: string, rest: string)
    requires '$' !in body
    ensures Find(body + "$$" + rest, "$$") == Some(|body|)
  {
    var s := body + "$$" + rest;
    if body == "" {
      assert s[..2] == "$$";
    } else {
      DollarCloses(body[1..], rest);
      assert s[0] == body[0] && s[1..] == body[1..] + "$$" + rest;
      assert s[..2][0] != '$';
    }
  }

  // --- the loops over an index ---

  /** The scan at `index` still has to find where the quote at `start` closes;
      `whole` is the answer. A last backslash takes it past the end. */
  predicate Quoting(sql: string, start: nat, index: nat, quote: char, backslash: bool, whole: Option<nat>) {
    && start < index
    && if index <= |sql| then whole == Add(index - start - 1, QuotedLength(sql[index..], quote, backslash))
       else whole == None
  }

  lemma QuotingPair(sql: string, start: nat, index: nat, quote: char, backslash: bool, whole: Option<nat>)
    requires index < |sql| && Quoting(sql, start, index, quote, backslash, whole)
    requires if backslash && sql[index] == '\\' then true
             else sql[index] == quote && index + 1 < |sql| && sql[index + 1] == quote
    ensures Quoting(sql, start, index + 2, quote, backslash, whole)
  {
    if index + 2 <= |sql| { assert sql[index..][2..] == sql[index + 2..]; }
  }

  lemma QuotingOne(sql: string, start: nat, index: nat, quote: char, backslash: bool, whole: Option<nat>)
    requires index < |sql| && Quoting(sql, start, index, quote, backslash, whole)
    requires !(backslash && sql[index] == '\\') && sql[index] != quote
    ensures Quoting(sql, start, index + 1, quote, backslash, whole)
  {
    assert sql[index..][1..] == sql[index + 1..];
  }

  method QuotedEnd(sql: string, start: nat, quote: char, backslash: bool) returns (end: nat)
    requires start < |sql|
    ensures end == start + QuotedRegionLength(sql[start..], quote, backslash)
  {
    ghost var whole := QuotedLength(sql[start + 1..], quote, backslash);
    assert sql[start..][1..] == sql[start + 1..];
    var index := start + 1;
    while index < |sql|
      invariant Quoting(sql, start, index, quote, backslash, whole)
    {
      var character := sql[index];
      if backslash && character == '\\' {
        QuotingPair(sql, start, index, quote, backslash, whole);
        index := index + 2;
      } else if character == quote {
        if index + 1 < |sql| && sql[index + 1] == quote {
          QuotingPair(sql, start, index, quote, backslash, whole);
          index := index + 2;
        } else {
          return index + 1;
        }
      } else {
        QuotingOne(sql, start, index, quote, backslash, whole);
        index := index + 1;
      }
    }
    end := |sql|;
  }

  lemma {:induction false} AllSentMore(done: seq<Region>, r: Region)
    ensures AllSent(done + [r]) == AllSent(done) + Sent(r)
  {
    if done == [] {
      assert done + [r] == [r] && [r][1..] == [];
    } else {
      AllSentMore(done[1..], r);
      assert (done + [r])[1..] == done[1..] + [r] && (done + [r])[0] == done[0];
      Regroup(Sent(done[0]), AllSent(done[1..]), Sent(r));
    }
  }

  lemma Regroup(a: string, b: string, c: string)
    ensures (a + b) + c == a + (b + c)
  {
  }

  lemma {:induction false} PlaceholdersMore(done: seq<Region>, r: Region)
    ensures Placeholders(done + [r]) == Placeholders(done) + if r.Placeholder? then 1 else 0
  {
    if done == [] {
      assert done + [r] == [r] && [r][1..] == [];
    } else {
      PlaceholdersMore(done[1..], r);
      assert (done + [r])[1..] == done[1..] + [r] && (done + [r])[0] == done[0];
    }
  }

  /** What the whole scan says once `done` is read and `rest` is left. */
  function After(done: seq<Region>, rest: Option<seq<Region>>): Option<seq<Region>> {
    match rest case None => None case Some(regions) => Some(done + regions)
  }

  lemma AfterOne(done: seq<Region>, r: Region, rest: Option<seq<Region>>)
    ensures After(done, Cons(r, rest)) == After(done + [r], rest)
  {
    if rest.Some? { assert done + ([r] + rest.value) == done + [r] + rest.value; }
  }

  method RegionEnd(u: Unicode, sql: string, index: nat) returns (end: Option<nat>)
    requires index < |sql|
    ensures end == Add(index, StepLength(u, sql[..index], sql[index..]))
  {
    var rest, before := sql[index..], sql[..index];
    if StartsLineComment(rest) {
      end := Some(index + LineCommentLength(rest));
    } else if OpensComment(rest) {
      var e := BlockCommentEnd(sql, index);
      end := Some(e);
    } else if rest[0] == '\'' {
      var e := QuotedEnd(sql, index, '\'', EscapeBefore(before));
      end := Some(e);
    } else if rest[0] == '"' {
      var e := QuotedEnd(sql, index, '"', false);
      end := Some(e);
    } else if rest[0] == '$' && !IdentifierBefore(before) && TagLength(rest).Some? {
      var n := TagLength(rest).value;
      end := Some(index + n + DollarBodyLength(rest[n..], rest[..n]));
    } else if rest[0] == ':' && |rest| >= 2 && rest[1] == ':' {
      end := Some(index + 2);
    } else if rest[0] == ':' && |rest| >= 2 && (u.alpha(rest[1]) || rest[1] == '_') {
      end := None;
    } else if rest[0] == '?' && |rest| >= 2 && (rest[1] == '|' || rest[1] == '&' || u.digit(rest[1])) {
      end := None;
    } else {
      end := Some(index + 1);
    }
  }

  /** The scan so far: `done` is read and sent, and `rest` is what the scan
      makes of what is left of the text, `whole` of all of it. */
  predicate Progress(whole: Option<seq<Region>>, rest: Option<seq<Region>>, done: seq<Region>, out: string, count: nat) {
    out == AllSent(done) && count == Placeholders(done) && whole == After(done, rest)
  }

  lemma ProgressMore(whole: Option<seq<Region>>, r: Region, rest: Option<seq<Region>>, done: seq<Region>, out: string,
                     count: nat)
    requires Progress(whole, Cons(r, rest), done, out, count)
    ensures Progress(whole, rest, done + [r], out + Sent(r), count + if r.Placeholder? then 1 else 0)
  {
    AfterOne(done, r, rest);
    AllSentMore(done, r);
    PlaceholdersMore(done, r);
  }

  /** The scan of a text is its first region and the scan of the rest. */
  lemma ScanOnce(u: Unicode, before: string, s: string)
    returns (n: Option<nat>, r: Region, rest: Option<seq<Region>>, past: string, tail: string)
    requires s != ""
    ensures n == StepLength(u, before, s)
    ensures n.None? ==> Scan(u, before, s).None?
    ensures n.Some? ==>
      && 0 < n.value <= |s| && s[..n.value] == RegionText(r) && (r.Placeholder? <==> s[0] == '?')
      && past == before + s[..n.value] && tail == s[n.value..]
      && rest == Scan(u, past, tail) && Scan(u, before, s) == Cons(r, rest)
  {
    var step := Step(u, before, s);
    match step
    case None => n, r, rest, past, tail := None, Placeholder, None, "", "";
    case Some(region) =>
      var m := |RegionText(region)|;
      past, tail := before + s[..m], s[m..];
      n, r, rest := Some(m), region, Scan(u, past, tail);
  }

  lemma Slices(sql: string, index: nat, n: nat)
    requires index + n <= |sql|
    ensures sql[..index] + sql[index..][..n] == sql[..index + n] && sql[index..][n..] == sql[index + n..]
    ensures sql[index..][..n] == sql[index..index + n]
  {
  }

  /** The region is what stands from `index` to `e`. */
  predicate Covers(sql: string, index: nat, e: nat, step: Region) {
    index < e <= |sql| && sql[index..e] == RegionText(step) && (step.Placeholder? <==> sql[index] == '?')
  }

  predicate PartedAt(sql: string, index: nat, past: string, tail: string) {
    index <= |sql| && past == sql[..index] && tail == sql[index..]
  }

  /** The text, parted at `index`, with its slices out of sight. */
  ghost predicate Parted(sql: string, index: nat, past: string, tail: string) {
    forall i: nat :: i == index ==> PartedAt(sql, i, past, tail)
  }

  /** What is known once the region at `index` has been read: where it ends,
      which it is, and that the scan goes on from there. */
  ghost predicate Carried(u: Unicode, sql: string, index: nat, end: Option<nat>, step: Region, rest: Option<seq<Region>>,
                    after: Option<seq<Region>>, past: string, tail: string)
    requires index < |sql|
  {
    match end
    case None => rest.None?
    case Some(e) =>
      && Covers(sql, index, e, step) && Parted(sql, e, past, tail)
      && rest == Cons(step, after) && after == Scan(u, past, tail)
  }

  lemma CoversIt(sql: string, index: nat, n: nat, step: Region, past: string, tail: string, next: string, last: string)
    requires index < |sql| && Parted(sql, index, past, tail)
    requires 0 < n <= |tail| && tail[..n] == RegionText(step) && (step.Placeholder? <==> tail[0] == '?')
    requires next == past + tail[..n] && last == tail[n..]
    ensures Covers(sql, index, index + n, step) && Parted(sql, index + n, next, last)
  {
    assert PartedAt(sql, index, past, tail);
    Slices(sql, index, n);
    assert PartedAt(sql, index + n, next, last);
  }

  lemma TailIsLeft(sql: string, index: nat, past: string, tail: string)
    requires index < |sql| && Parted(sql, index, past, tail)
    ensures past == sql[..index] && tail == sql[index..] && tail != ""
  {
    assert PartedAt(sql, index, past, tail);
  }

  lemma NothingPast(sql: string)
    ensures Parted(sql, 0, "", sql)
  {
    assert PartedAt(sql, 0, "", sql);
  }

  lemma AllPast(sql: string, index: nat, past: string, tail: string)
    requires index >= |sql| && Parted(sql, index, past, tail)
    ensures tail == ""
  {
    assert PartedAt(sql, index, past, tail);
  }

  lemma Carry(u: Unicode, sql: string, index: nat, past: string, tail: string)
    returns (end: Option<nat>, step: Region, after: Option<seq<Region>>, next: string, last: string)
    requires index < |sql| && Parted(sql, index, past, tail) && tail != ""
    ensures end == Add(index, StepLength(u, past, tail))
    ensures Carried(u, sql, index, end, step, Scan(u, past, tail), after, next, last)
  {
    var n;
    n, step, after, next, last := ScanOnce(u, past, tail);
    end := Add(index, n);
    if n.Some? { CoversIt(sql, index, n.value, step, past, tail, next, last); }
  }

  /** The end of the region at `index`, with the scan carried over it. */
  method NextRegion(u: Unicode, sql: string, index: nat, ghost rest: Option<seq<Region>>, ghost past: string,
                    ghost tail: string)
    returns (end: Option<nat>, ghost step: Region, ghost after: Option<seq<Region>>, ghost next: string,
             ghost last: string)
    requires index < |sql| && Parted(sql, index, past, tail) && rest == Scan(u, past, tail)
    ensures Carried(u, sql, index, end, step, rest, after, next, last)
  {
    TailIsLeft(sql, index, past, tail);
    end := RegionEnd(u, sql, index);
    ghost var same;
    same, step, after, next, last := Carry(u, sql, index, past, tail);
  }

  lemma ProgressNone(whole: Option<seq<Region>>, done: seq<Region>, out: string, count: nat)
    requires Progress(whole, None, done, out, count)
    ensures whole.None?
  {
  }

  /** `read_statement`: one pass over the text, which always advances. */
  method ReadStatement(u: Unicode, sql: string) returns (r: Option<Statement>)
    ensures r == Read(u, sql)
  {
    var out, count, index := "", 0, 0;
    ghost var whole, done: seq<Region> := Scan(u, "", sql), [];
    ghost var rest, past, tail := whole, "", sql;
    NothingRead(whole);
    NothingPast(sql);
    while index < |sql|
      invariant 0 <= count && index <= |sql|
      invariant Parted(sql, index, past, tail) && rest == Scan(u, past, tail)
      invariant Progress(whole, rest, done, out, count)
    {
      var end;
      ghost var step, after;
      end, step, after, past, tail := NextRegion(u, sql, index, rest, past, tail);
      if end.None? {
        ProgressNone(whole, done, out, count);
        return None;
      }
      ProgressMore(whole, step, after, done, out, count);
      done, rest := done + [step], after;
      if sql[index] == '?' {
        out, count := out + "%s", count + 1;
      } else {
        out := out + Doubled(sql[index..end.value]);
      }
      index := end.value;
    }
    AllPast(sql, index, past, tail);
    AllRead(whole, done, out, count);
    r := Some(Statement(out, count));
  }

  lemma NothingRead(whole: Option<seq<Region>>)
    ensures Progress(whole, whole, [], "", 0)
  {
    if whole.Some? { assert [] + whole.value == whole.value; }
  }

  lemma AllRead(whole: Option<seq<Region>>, done: seq<Region>, out: string, count: nat)
    requires Progress(whole, Some([]), done, out, count)
    ensures whole == Some(done) && out == AllSent(done) && count == Placeholders(done)
  {
    assert done + [] == done;
  }
}
