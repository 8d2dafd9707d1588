/** The line splitter of `src/parser/mod.rs`: `token_should_end`, the
    `LineToParse` iterator and `tokenize`. Columns are counted in characters. */
module Lexer {
  import opened Outcomes
  import opened Tokens

  /** Rust's `char::is_whitespace`: the Unicode `White_Space` property. */
  predicate IsWhitespace(c: char) {
    || c == ' '
    || '\t' <= c <= '\r'
    || c == '\U{0085}' || c == '\U{00A0}' || c == '\U{1680}'
    || '\U{2000}' <= c <= '\U{200A}'
    || c == '\U{2028}' || c == '\U{2029}' || c == '\U{202F}' || c == '\U{205F}' || c == '\U{3000}'
  }

  predicate IsParenthesis(c: char) {
    c == '(' || c == ')'
  }

  predicate AllWhitespace(s: string) {
    forall k | 0 <= k < |s| :: IsWhitespace(s[k])
  }

  predicate NoWhitespace(s: string) {
    forall k | 0 <= k < |s| :: !IsWhitespace(s[k])
  }

  /** `token_should_end`: whether the token started by `left` stops before `right`. */
  predicate TokenShouldEnd(left: char, right: char)
    ensures IsParenthesis(left) || IsParenthesis(right) ==> TokenShouldEnd(left, right)
    ensures !IsParenthesis(left) ==>
              (TokenShouldEnd(left, right) <==> IsWhitespace(right) || IsParenthesis(right))
  {
    IsWhitespace(right) || IsParenthesis(left) || IsParenthesis(right)
  }

  /** How many whitespace characters `s` begins with. */
  function LeadingWhitespace(s: string): (n: nat)
    ensures n <= |s|
    ensures AllWhitespace(s[..n])
    ensures n < |s| ==> !IsWhitespace(s[n])
  {
    if |s| > 0 && IsWhitespace(s[0]) then 1 + LeadingWhitespace(s[1..]) else 0
  }

  /** How many whitespace characters `s` ends with. */
  function TrailingWhitespace(s: string): (n: nat)
    ensures n <= |s|
    ensures AllWhitespace(s[|s| - n..])
    ensures n < |s| ==> !IsWhitespace(s[|s| - n - 1])
  {
    if |s| > 0 && IsWhitespace(s[|s| - 1]) then
      var m := TrailingWhitespace(s[..|s| - 1]);
      TrailingStep(s, m);
      m + 1
    else 0
  }

  /** One more whitespace character at the end extends a whitespace suffix. */
  lemma TrailingStep(s: string, m: nat)
    requires |s| > 0 && IsWhitespace(s[|s| - 1]) && m < |s|
    requires AllWhitespace(s[..|s| - 1][|s| - 1 - m..])
    ensures AllWhitespace(s[|s| - (m + 1)..])
  {
    var t, u := s[|s| - (m + 1)..], s[..|s| - 1][|s| - 1 - m..];
    forall k | 0 <= k < |t|
      ensures IsWhitespace(t[k])
    {
      if k < m {
        assert t[k] == u[k];
      }
    }
  }

  /** `str::trim_start`. */
  function TrimStart(s: string): string {
    s[LeadingWhitespace(s)..]
  }

  /** `str::trim_end`. */
  function TrimEnd(s: string): string {
    s[..|s| - TrailingWhitespace(s)]
  }

  /** `str::trim`: whitespace removed from both ends. */
  function Trim(s: string): (r: string)
    ensures r == [] <==> AllWhitespace(s)
  {
    TrimEnd(TrimStart(s))
  }

  /** The first index at or after `from` where the token begun by `line[0]`
      ends, or the length of the line when none does. */
  function FindEnd(line: string, from: nat): (cut: nat)
    requires 0 < from <= |line|
    decreases |line| - from
    ensures from <= cut <= |line|
    ensures forall k | from <= k < cut :: !TokenShouldEnd(line[0], line[k])
    ensures cut < |line| ==> TokenShouldEnd(line[0], line[cut])
  {
    if from == |line| || TokenShouldEnd(line[0], line[from]) then from
    else FindEnd(line, from + 1)
  }

  /** One step of the iterator: the trimmed token and the rest of the line
      that becomes the iterator's new state. */
  datatype Scan = Scan(token: string, rest: string)

  /** `LineToParse::next`: cut the line at the first token end after its
      first character, skip the piece when it is all whitespace, and
      otherwise yield it trimmed. */
  function Next(line: string): (r: Option<Scan>)
    decreases |line|
    ensures r.Some? ==> |r.value.rest| < |line|
    ensures r.None? <==> AllWhitespace(line)
  {
    if |line| == 0 then None
    else
      var cut := FindEnd(line, 1);
      var token := Trim(line[..cut]);
      assert line == line[..cut] + line[cut..];
      if token == [] then Next(line[cut..])
      else Some(Scan(token, line[cut..]))
  }

  /** One item of the iterator: the token text and the length of the line
      that remains after it. */
  datatype Item = Item(raw: string, remaining: nat)

  /** The iterator collected: every item `LineToParse` yields, in order. */
  function Items(line: string): (r: seq<Item>)
    decreases |line|
    ensures forall it | it in r :: it.remaining < |line|
    ensures r == [] <==> AllWhitespace(line)
  {
    match Next(line)
    case None => []
    case Some(s) => [Item(s.token, |s.rest|)] + Items(s.rest)
  }

  /** Each item leaves strictly less of the line than every item before it. */
  predicate Descending(r: seq<Item>) {
    forall i, j | 0 <= i < j < |r| :: r[j].remaining < r[i].remaining
  }

  lemma PrependDescending(first: Item, tail: seq<Item>)
    requires Descending(tail)
    requires forall it | it in tail :: it.remaining < first.remaining
    ensures Descending([first] + tail)
  {
    var r := [first] + tail;
    forall i, j | 0 <= i < j < |r|
      ensures r[j].remaining < r[i].remaining
    {
      assert r[j] == tail[j - 1];
      if i > 0 {
        assert r[i] == tail[i - 1];
      } else {
        assert tail[j - 1] in tail;
      }
    }
  }

  /** Items come out left to right. */
  lemma {:induction false} ItemsInOrder(line: string)
    decreases |line|
    ensures Descending(Items(line))
  {
    var next := Next(line);
    if next.Some? {
      ItemsInOrder(next.value.rest);
      PrependDescending(Item(next.value.token, |next.value.rest|), Items(next.value.rest));
    }
  }

  /** `tokenize`: classify each item and stamp it with row `row + 1` and
      position `line.len() - remaining - 1`. */
  function Tokenize(line: string, row: nat): (r: seq<TokenData>)
    ensures |r| == |Items(line)|
    ensures forall i | 0 <= i < |r| ::
              && r[i].token == NewToken(Items(line)[i].raw)
              && r[i].row == row + 1
              && r[i].position < |line|
    ensures forall i, j | 0 <= i < j < |r| :: r[i].position < r[j].position
  {
    var items := Items(line);
    assert forall i | 0 <= i < |items| :: items[i] in items;
    ItemsInOrder(line);
    seq(|items|, i requires 0 <= i < |items| =>
      TokenData(NewToken(items[i].raw), row + 1, |line| - items[i].remaining - 1))
  }

  /** A token as the iterator cuts it: non-empty, starting with a
      non-whitespace character, and running on as long as
      `token_should_end` stays false against its first character. */
  predicate IsMaximalToken(t: string) {
    && |t| > 0
    && !IsWhitespace(t[0])
    && forall j | 0 < j < |t| :: !TokenShouldEnd(t[0], t[j])
  }

  /** `line` is some whitespace, then `token`, then `rest`. */
  predicate Splits(line: string, token: string, rest: string) {
    && |token| + |rest| <= |line|
    && AllWhitespace(line[..|line| - |token| - |rest|])
    && line[|line| - |token| - |rest|..] == token + rest
  }

  lemma TrimPiece(b: string)
    requires |b| > 0
    requires forall k | 1 <= k < |b| :: !IsWhitespace(b[k])
    ensures Trim(b) == if IsWhitespace(b[0]) then b[1..] else b
  {
    if IsWhitespace(b[0]) {
      assert TrimStart(b) == TrimStart(b[1..]);
      assert TrimStart(b[1..]) == b[1..];
      if |b| > 1 {
        assert TrimEnd(b[1..]) == b[1..];
      }
    } else {
      assert TrimStart(b) == b;
      assert TrimEnd(b) == b;
    }
  }

  /** The token facts `NextShape` states, for one token and what follows it. */
  predicate WellCut(line: string, token: string, rest: string) {
    && Splits(line, token, rest)
    && IsMaximalToken(token)
    && NoWhitespace(token)
    && (rest == [] || TokenShouldEnd(token[0], rest[0]))
  }

  /** The piece `next` cuts off, trimmed: only its first character can be
      whitespace. */
  lemma PieceTrim(line: string)
    requires |line| > 0
    ensures var cut := FindEnd(line, 1);
      Trim(line[..cut]) == if IsWhitespace(line[0]) then line[1..cut] else line[..cut]
  {
    var cut := FindEnd(line, 1);
    var before := line[..cut];
    forall k | 1 <= k < |before|
      ensures !IsWhitespace(before[k])
    {
      assert !TokenShouldEnd(line[0], line[k]);
    }
    TrimPiece(before);
  }

  /** The piece `next` keeps is a maximal token. */
  lemma PieceMaximal(line: string)
    requires |line| > 0
    requires var cut := FindEnd(line, 1); IsWhitespace(line[0]) ==> 1 < cut
    ensures var cut := FindEnd(line, 1);
      var t := if IsWhitespace(line[0]) then line[1..cut] else line[..cut];
      && IsMaximalToken(t)
      && (cut < |line| ==> TokenShouldEnd(t[0], line[cut]))
  {
    var cut := FindEnd(line, 1);
    if IsWhitespace(line[0]) {
      var t := line[1..cut];
      assert !TokenShouldEnd(line[0], line[1]);
      forall j | 0 < j < |t|
        ensures !TokenShouldEnd(t[0], t[j])
      {
        assert !TokenShouldEnd(line[0], line[j + 1]);
      }
    } else {
      var t := line[..cut];
      forall j | 0 < j < |t|
        ensures !TokenShouldEnd(t[0], t[j])
      {
        assert !TokenShouldEnd(line[0], line[j]);
      }
    }
  }

  /** A maximal token holds no whitespace at all. */
  lemma MaximalHasNoWhitespace(t: string)
    requires IsMaximalToken(t)
    ensures NoWhitespace(t)
  {
    forall k | 0 < k < |t|
      ensures !IsWhitespace(t[k])
    {
      assert !TokenShouldEnd(t[0], t[k]);
    }
  }

  /** The piece `next` cuts off is some whitespace, then its trimmed text. */
  lemma PieceSplits(line: string)
    requires |line| > 0
    ensures Splits(line, Trim(line[..FindEnd(line, 1)]), line[FindEnd(line, 1)..])
  {
    var cut := FindEnd(line, 1);
    PieceTrim(line);
    if IsWhitespace(line[0]) {
      CutAt(line, 1, cut);
      SplitsOf(line, line[..1], line[1..cut], line[cut..]);
    } else {
      CutAt(line, 0, cut);
      SplitsOf(line, line[..0], line[..cut], line[cut..]);
    }
  }

  lemma CutAt(line: string, i: nat, j: nat)
    requires i <= j <= |line|
    ensures line == line[..i] + line[i..j] + line[j..]
  {
  }

  /** The piece `next` keeps when its trimmed text is not empty. */
  lemma PieceShape(line: string)
    requires |line| > 0
    requires Trim(line[..FindEnd(line, 1)]) != []
    ensures WellCut(line, Trim(line[..FindEnd(line, 1)]), line[FindEnd(line, 1)..])
  {
    PieceTrim(line);
    PieceMaximal(line);
    PieceSplits(line);
    MaximalHasNoWhitespace(Trim(line[..FindEnd(line, 1)]));
  }

  lemma SplitsOf(line: string, pre: string, token: string, rest: string)
    requires line == pre + token + rest
    requires AllWhitespace(pre)
    ensures Splits(line, token, rest)
  {
    assert line[..|pre|] == pre;
    assert line[|pre|..] == token + rest;
  }

  /** A whitespace piece in front of a well-cut token keeps it well cut. */
  lemma SkipShape(line: string, cut: nat, token: string, rest: string)
    requires cut <= |line|
    requires AllWhitespace(line[..cut])
    requires WellCut(line[cut..], token, rest)
    ensures WellCut(line, token, rest)
  {
    var after := line[cut..];
    var k := |after| - |token| - |rest|;
    assert line[..cut + k] == line[..cut] + after[..k];
  }

  /** What one call of `LineToParse::next` yields: it skips only
      whitespace, the token it returns is whitespace-free and maximal, and
      the rest of the line begins where `token_should_end` fired. */
  lemma {:induction false} NextShape(line: string)
    decreases |line|
    requires Next(line).Some?
    ensures WellCut(line, Next(line).value.token, Next(line).value.rest)
  {
    var cut := FindEnd(line, 1);
    if Trim(line[..cut]) == [] {
      NextShape(line[cut..]);
      SkipShape(line, cut, Next(line).value.token, Next(line).value.rest);
    } else {
      PieceShape(line);
    }
  }

  /** Parentheses are always tokens of their own: a maximal token holding
      `(` or `)` anywhere is exactly that one character. */
  lemma ParenthesesStandAlone(t: string)
    requires IsMaximalToken(t)
    ensures (exists k | 0 <= k < |t| :: IsParenthesis(t[k])) ==> |t| == 1
  {
    if exists k | 0 <= k < |t| :: IsParenthesis(t[k]) {
      var k :| 0 <= k < |t| && IsParenthesis(t[k]);
      if |t| > 1 {
        assert TokenShouldEnd(t[0], t[1]);
      }
    }
  }

  /** The item's text sits in `line` right before the last `remaining`
      characters. */
  predicate EndsAt(line: string, it: Item) {
    && |it.raw| + it.remaining <= |line|
    && line[|line| - it.remaining - |it.raw|..|line| - it.remaining] == it.raw
  }

  lemma SuffixEndsAt(line: string, rest: string, it: Item)
    requires |rest| <= |line| && rest == line[|line| - |rest|..]
    requires EndsAt(rest, it)
    ensures EndsAt(line, it)
  {
    var off := |line| - |rest|;
    var lo := |rest| - it.remaining - |it.raw|;
    var hi := |rest| - it.remaining;
    assert rest[lo..hi] == line[off + lo..off + hi];
  }

  lemma SplitsEndsAt(line: string, token: string, rest: string)
    requires Splits(line, token, rest)
    ensures EndsAt(line, Item(token, |rest|))
    ensures rest == line[|line| - |rest|..]
  {
    var k := |line| - |token| - |rest|;
    assert line[k..] == token + rest;
    assert line[k..|line| - |rest|] == line[k..][..|token|];
    assert line[|line| - |rest|..] == line[k..][|token|..];
  }

  /** The item is a maximal, whitespace-free token found in the line
      exactly where its `remaining` count says. */
  predicate Located(line: string, it: Item) {
    EndsAt(line, it) && IsMaximalToken(it.raw) && NoWhitespace(it.raw)
  }

  /** Every item the iterator yields is located in the line. */
  lemma {:induction false} ItemsLocated(line: string)
    decreases |line|
    ensures forall it | it in Items(line) :: Located(line, it)
  {
    var next := Next(line);
    if next.Some? {
      var s := next.value;
      var head := Item(s.token, |s.rest|);
      var tail := Items(s.rest);
      FirstItem(line);
      ItemsLocated(s.rest);
      SuffixAllLocated(line, s.rest, tail);
      ConsLocated(line, head, tail);
      ItemsUnfold(line);
    }
  }

  lemma ItemsUnfold(line: string)
    requires Next(line).Some?
    ensures var s := Next(line).value; Items(line) == [Item(s.token, |s.rest|)] + Items(s.rest)
  {
  }

  lemma ConsLocated(line: string, head: Item, tail: seq<Item>)
    requires Located(line, head)
    requires forall it | it in tail :: Located(line, it)
    ensures forall it | it in [head] + tail :: Located(line, it)
  {
  }

  lemma SuffixAllLocated(line: string, rest: string, items: seq<Item>)
    requires |rest| <= |line| && rest == line[|line| - |rest|..]
    requires forall it | it in items :: Located(rest, it)
    ensures forall it | it in items :: Located(line, it)
  {
    forall it | it in items
      ensures Located(line, it)
    {
      SuffixEndsAt(line, rest, it);
    }
  }

  lemma FirstItem(line: string)
    requires Next(line).Some?
    ensures var s := Next(line).value;
      && Located(line, Item(s.token, |s.rest|))
      && s.rest == line[|line| - |s.rest|..]
  {
    var s := Next(line).value;
    NextShape(line);
    SplitsEndsAt(line, s.token, s.rest);
  }

  /** The line with every whitespace character dropped. */
  function RemoveWhitespace(s: string): (r: string)
    ensures |r| <= |s|
    ensures NoWhitespace(r)
  {
    if |s| == 0 then []
    else if IsWhitespace(s[0]) then RemoveWhitespace(s[1..])
    else [s[0]] + RemoveWhitespace(s[1..])
  }

  lemma {:induction false} RemoveWhitespaceAppend(a: string, b: string)
    ensures RemoveWhitespace(a + b) == RemoveWhitespace(a) + RemoveWhitespace(b)
  {
    if |a| > 0 {
      assert (a + b)[1..] == a[1..] + b;
      RemoveWhitespaceAppend(a[1..], b);
    } else {
      assert a + b == b;
    }
  }

  lemma {:induction false} RemoveWhitespaceOf(s: string)
    ensures AllWhitespace(s) ==> RemoveWhitespace(s) == []
    ensures NoWhitespace(s) ==> RemoveWhitespace(s) == s
  {
    if |s| > 0 {
      RemoveWhitespaceOf(s[1..]);
      if NoWhitespace(s) {
        assert [s[0]] + s[1..] == s;
      }
    }
  }

  /** The texts of the items, run together. */
  function Joined(items: seq<Item>): string {
    if |items| == 0 then [] else items[0].raw + Joined(items[1..])
  }

  /** Nothing but whitespace is lost: the items' texts, run together, are
      the line with its whitespace removed. */
  lemma {:induction false} ItemsCoverLine(line: string)
    decreases |line|
    ensures Joined(Items(line)) == RemoveWhitespace(line)
  {
    var next := Next(line);
    if next.None? {
      RemoveWhitespaceOf(line);
    } else {
      var s := next.value;
      NextShape(line);
      ItemsCoverLine(s.rest);
      CutRemovesWhitespace(line, s.token, s.rest);
      var items := Items(line);
      assert items == [Item(s.token, |s.rest|)] + Items(s.rest);
      assert items[1..] == Items(s.rest);
    }
  }

  /** Cutting a token off a line loses only the whitespace before it. */
  lemma CutRemovesWhitespace(line: string, token: string, rest: string)
    requires WellCut(line, token, rest)
    ensures RemoveWhitespace(line) == token + RemoveWhitespace(rest)
  {
    var k := |line| - |token| - |rest|;
    assert line == line[..k] + (token + rest);
    RemoveWhitespaceAppend(line[..k], token + rest);
    RemoveWhitespaceAppend(token, rest);
    RemoveWhitespaceOf(line[..k]);
    RemoveWhitespaceOf(token);
  }

  /** What a token record says about the text it came from: `position` is
      the column of the text's last character and the text ends there;
      the token is a parenthesis exactly when the text holds one; a
      tokenization error carries the text, which is non-empty and holds
      neither whitespace nor a parenthesis. */
  predicate Fits(line: string, td: TokenData, raw: string) {
    && 0 < |raw| <= td.position + 1 <= |line|
    && line[td.position + 1 - |raw|..td.position + 1] == raw
    && (td.token == OpenParenthesis <==> '(' in raw)
    && (td.token == CloseParenthesis <==> ')' in raw)
    && (td.token.TokenizationError? ==>
          td.token.raw == raw && NoWhitespace(raw) && '(' !in raw && ')' !in raw)
  }

  lemma ItemFits(line: string, it: Item, td: TokenData)
    requires EndsAt(line, it) && IsMaximalToken(it.raw) && NoWhitespace(it.raw)
    requires it.remaining < |line|
    requires td.token == NewToken(it.raw) && td.position == |line| - it.remaining - 1
    ensures Fits(line, td, it.raw)
  {
    var raw := it.raw;
    ParenthesesStandAlone(raw);
    NewTokenClassifies(raw);
    if '(' in raw || ')' in raw {
      var k :| 0 <= k < |raw| && IsParenthesis(raw[k]);
      assert |raw| == 1 && raw == [raw[k]];
    }
  }

  /** Every record `tokenize` makes fits the text it was made from. */
  lemma TokenizeLocates(line: string, row: nat)
    ensures forall i | 0 <= i < |Tokenize(line, row)| ::
      Fits(line, Tokenize(line, row)[i], Items(line)[i].raw)
  {
    forall i | 0 <= i < |Tokenize(line, row)|
      ensures Fits(line, Tokenize(line, row)[i], Items(line)[i].raw)
    {
      TokenFits(line, row, i);
    }
  }

  lemma TokenFits(line: string, row: nat, i: nat)
    requires i < |Tokenize(line, row)|
    ensures Fits(line, Tokenize(line, row)[i], Items(line)[i].raw)
  {
    var items := Items(line);
    var it := items[i];
    var td := Tokenize(line, row)[i];
    TokenizeAt(line, row, i);
    ItemLocated(line, i);
    ItemFits(line, it, td);
  }

  lemma ItemLocated(line: string, i: nat)
    requires i < |Items(line)|
    ensures var it := Items(line)[i];
      EndsAt(line, it) && IsMaximalToken(it.raw) && NoWhitespace(it.raw) && it.remaining < |line|
  {
    ItemsLocated(line);
    assert Items(line)[i] in Items(line);
    assert Located(line, Items(line)[i]);
  }

  lemma TokenizeAt(line: string, row: nat, i: nat)
    requires i < |Tokenize(line, row)|
    ensures var it := Items(line)[i];
      Tokenize(line, row)[i] == TokenData(NewToken(it.raw), row + 1, |line| - it.remaining - 1)
  {
  }
}
