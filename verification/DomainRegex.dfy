/** Wildcard domain names (`padsi/fwlib/netflow.py`): the regular expression built for a pattern
    by text replacement, against the set of names the pattern stands for. */
module DomainRegex {

  // ----- text operations

  /** Replace every occurrence of a character. */
  function ReplaceChar(s: string, c: char, rep: string): string {
    if s == "" then "" else (if s[0] == c then rep else [s[0]]) + ReplaceChar(s[1..], c, rep)
  }

  /** Replace pairs of a character, leftmost first and without overlap. */
  function ReplacePair(s: string, c: char, rep: string): string {
    if s == "" then ""
    else if |s| >= 2 && s[0] == c && s[1] == c then rep + ReplacePair(s[2..], c, rep)
    else [s[0]] + ReplacePair(s[1..], c, rep)
  }

  function Split(s: string, c: char): (parts: seq<string>)
    ensures |parts| >= 1
  {
    if s == "" then [""]
    else
      var rest := Split(s[1..], c);
      if s[0] == c then [""] + rest else [[s[0]] + rest[0]] + rest[1..]
  }

  function Join(parts: seq<string>, rep: string): string
    requires |parts| >= 1
  {
    if |parts| == 1 then parts[0] else parts[0] + rep + Join(parts[1..], rep)
  }

  // ----- the regular expression of a pattern

  const PLUS := "[^\\.\\*]+"
  const STAR := "[^\\.\\*]*"
  const ANY := ".*"
  const DOT := "\\."
  /** Stands for `**` while the single stars are replaced. */
  const MARK := '\U{A7}'

  /** The loop over the labels: a lone star is one or more characters, another star is zero or
      more. */
  method LabelPatterns(parts: seq<string>) returns (nparts: seq<string>)
    ensures nparts == LabelRegexes(parts)
  {
    nparts := [];
    for i := 0 to |parts|
      invariant nparts == LabelRegexes(parts[..i])
    {
      var p := parts[i];
      if p == "*" {
        nparts := nparts + [PLUS];
      } else {
        nparts := nparts + [ReplaceChar(p, '*', STAR)];
      }
      assert parts[..i + 1] == parts[..i] + [p];
    }
    assert parts[..|parts|] == parts;
  }

  function LabelRegex(p: string): string { if p == "*" then PLUS else ReplaceChar(p, '*', STAR) }

  function LabelRegexes(parts: seq<string>): (r: seq<string>)
    ensures |r| == |parts|
  {
    seq(|parts|, i requires 0 <= i < |parts| => LabelRegex(parts[i]))
  }

  function RegexOf(domain: string): string {
    if '*' in domain then
      "^" + ReplaceChar(Join(LabelRegexes(Split(ReplacePair(domain, '*', [MARK]), '.')), DOT), MARK, ANY) + "$"
    else ReplaceChar(domain, '.', DOT)
  }

  method DomainToRegex(domain: string) returns (r: string)
    ensures r == RegexOf(domain)
  {
    if '*' in domain {
      var q := ReplacePair(domain, '*', [MARK]);
      var nparts := LabelPatterns(Split(q, '.'));
      q := Join(nparts, DOT);
      return "^" + ReplaceChar(q, MARK, ANY) + "$";
    }
    return ReplaceChar(domain, '.', DOT);
  }

  // ----- regular expressions

  datatype Token = Start | End | Lit(c: char) | LabelPlus | LabelStar | AnyText

  /** Reading of the regular expression syntax used here; characters without a meaning stand for
      themselves. */
  function Tokens(re: string): seq<Token> {
    if re == "" then []
    else if "[^\\.\\*]+" <= re then [LabelPlus] + Tokens(re[8..])
    else if "[^\\.\\*]*" <= re then [LabelStar] + Tokens(re[8..])
    else if ".*" <= re then [AnyText] + Tokens(re[2..])
    else if "\\." <= re then [Lit('.')] + Tokens(re[2..])
    else [if re[0] == '^' then Start else if re[0] == '$' then End else Lit(re[0])] + Tokens(re[1..])
  }

  predicate InLabel(s: string) { forall c :: c in s ==> c != '.' && c != '*' }

  predicate OneLine(s: string) { '\n' !in s }

  /** `s[pos..]` starts with a match of the tokens: a match at the start of a text need not reach
      its end unless the expression says so. */
  ghost predicate Match(toks: seq<Token>, s: string, pos: nat)
    requires pos <= |s|
    decreases toks
  {
    toks == [] ||
    match toks[0]
    case Start => pos == 0 && Match(toks[1..], s, pos)
    case End => pos == |s| && Match(toks[1..], s, pos)
    case Lit(c) => pos < |s| && s[pos] == c && Match(toks[1..], s, pos + 1)
    case LabelPlus => exists k :: pos < k <= |s| && InLabel(s[pos..k]) && Match(toks[1..], s, k)
    case LabelStar => exists k :: pos <= k <= |s| && InLabel(s[pos..k]) && Match(toks[1..], s, k)
    case AnyText => exists k :: pos <= k <= |s| && OneLine(s[pos..k]) && Match(toks[1..], s, k)
  }

  ghost predicate ReMatch(re: string, s: string) { Match(Tokens(re), s, 0) }

  // ----- the names a pattern stands for

  datatype Item = One(c: char) | SomeChars | ManyChars | Text

  predicate DoubleStar(p: string) { |p| >= 2 && p[0] == '*' && p[1] == '*' }

  predicate LoneStar(p: string) { p != "" && p[0] == '*' && (|p| == 1 || p[1] == '.') }

  /** A pattern read from left to right: `**` is any text, a star that is a whole label one or more
      characters of a label, another star zero or more. */
  function Items(p: string, labelStart: bool): seq<Item> {
    if p == "" then []
    else if DoubleStar(p) then [Text] + Items(p[2..], false)
    else if p[0] == '*' then
      [if labelStart && LoneStar(p) then SomeChars else ManyChars] + Items(p[1..], false)
    else [One(p[0])] + Items(p[1..], p[0] == '.')
  }

  ghost predicate ItemHas(item: Item, s: string) {
    match item
    case One(c) => s == [c]
    case SomeChars => s != "" && InLabel(s)
    case ManyChars => InLabel(s)
    case Text => true
  }

  /** The name is a concatenation of one text for each item. */
  ghost predicate Composed(items: seq<Item>, s: string) {
    if items == [] then s == ""
    else exists k :: 0 <= k <= |s| && ItemHas(items[0], s[..k]) && Composed(items[1..], s[k..])
  }

  ghost predicate InGlob(pattern: string, name: string) { Composed(Items(pattern, true), name) }

  // ----- the built text says the items

  predicate Safe(c: char) { c !in "\\^$.|?*+()[]{}\n" && c != MARK }

  /** The characters of an accepted pattern: no regular expression syntax but dots and stars. */
  predicate PatternOk(p: string) { forall c :: c in p ==> c == '.' || c == '*' || Safe(c) }

  function ItemText(item: Item): string {
    match item
    case One(c) => if c == '.' then DOT else [c]
    case SomeChars => PLUS
    case ManyChars => STAR
    case Text => ANY
  }

  function Render(items: seq<Item>): string {
    if items == [] then "" else ItemText(items[0]) + Render(items[1..])
  }

  /** What becomes of a label, first with the lone star rule and then without. */
  function Whole(part: string): string { ReplaceChar(LabelRegex(part), MARK, ANY) }

  function Inner(part: string): string { ReplaceChar(ReplaceChar(part, '*', STAR), MARK, ANY) }

  function After(parts: seq<string>): string {
    if parts == [] then "" else DOT + Whole(parts[0]) + After(parts[1..])
  }

  lemma {:induction false} ReplaceConcat(a: string, b: string, c: char, rep: string)
    ensures ReplaceChar(a + b, c, rep) == ReplaceChar(a, c, rep) + ReplaceChar(b, c, rep)
    decreases a
  {
    if a == "" {
      assert a + b == b;
    } else {
      ReplaceConcat(a[1..], b, c, rep);
      assert (a + b)[1..] == a[1..] + b;
      var head := if a[0] == c then rep else [a[0]];
      assert head + (ReplaceChar(a[1..], c, rep) + ReplaceChar(b, c, rep)) ==
             ReplaceChar(a, c, rep) + ReplaceChar(b, c, rep);
    }
  }

  lemma {:induction false} ReplaceNone(s: string, c: char, rep: string)
    requires c !in s
    ensures ReplaceChar(s, c, rep) == s
    decreases s
  {
    if s != "" { ReplaceNone(s[1..], c, rep); }
  }

  lemma ReplaceAround(a: string, d: string, b: string, c: char, rep: string)
    requires c !in d
    ensures ReplaceChar(a + d + b, c, rep) == ReplaceChar(a, c, rep) + (d + ReplaceChar(b, c, rep))
  {
    ReplaceConcat(a + d, b, c, rep);
    ReplaceConcat(a, d, c, rep);
    ReplaceNone(d, c, rep);
    Assoc(ReplaceChar(a, c, rep), d, ReplaceChar(b, c, rep));
  }

  lemma Assoc(a: string, b: string, c: string)
    ensures a + b + c == a + (b + c)
  {
  }

  lemma {:induction false} MarkReplacedInJoin(parts: seq<string>)
    requires |parts| >= 1
    ensures ReplaceChar(Join(LabelRegexes(parts), DOT), MARK, ANY) == Whole(parts[0]) + After(parts[1..])
    decreases parts
  {
    if |parts| > 1 {
      var tail := parts[1..];
      MarkReplacedInJoin(tail);
      JoinFirst(parts);
      ReplaceBefore(LabelRegex(parts[0]), Join(LabelRegexes(tail), DOT), Whole(tail[0]), After(tail[1..]));
    }
  }

  lemma JoinFirst(parts: seq<string>)
    requires |parts| > 1
    ensures Join(LabelRegexes(parts), DOT) == LabelRegex(parts[0]) + DOT + Join(LabelRegexes(parts[1..]), DOT)
  {
    assert LabelRegexes(parts)[1..] == LabelRegexes(parts[1..]);
  }

  lemma ReplaceBefore(first: string, rest: string, whole: string, after: string)
    requires ReplaceChar(rest, MARK, ANY) == whole + after
    ensures ReplaceChar(first + DOT + rest, MARK, ANY) == ReplaceChar(first, MARK, ANY) + (DOT + whole + after)
  {
    ReplaceAround(first, DOT, rest, MARK, ANY);
    Assoc(DOT, whole, after);
  }

  /** The labels of the marked pattern. */
  function Parts(p: string): (r: seq<string>)
    ensures |r| >= 1
  {
    Split(ReplacePair(p, '*', [MARK]), '.')
  }

  lemma InnerOfMore(c: char, part: string)
    ensures Inner([c] + part) == (if c == '*' then STAR else if c == MARK then ANY else [c]) + Inner(part)
  {
    var star := if c == '*' then STAR else [c];
    assert ([c] + part)[1..] == part;
    assert ReplaceChar([c] + part, '*', STAR) == star + ReplaceChar(part, '*', STAR);
    ReplaceConcat(star, ReplaceChar(part, '*', STAR), MARK, ANY);
    if c != MARK { ReplaceNone(star, MARK, ANY); } else { ReplaceMark(); }
  }

  lemma ReplaceMark()
    ensures ReplaceChar([MARK], MARK, ANY) == ANY
  {
    assert ReplaceChar([MARK], MARK, ANY) == ANY + ReplaceChar("", MARK, ANY);
  }

  /** How the labels begin, by the pattern's first characters. */
  lemma PartsStep(p: string)
    requires p != ""
    ensures DoubleStar(p) ==>
              Parts(p)[0] == [MARK] + Parts(p[2..])[0] && Parts(p)[1..] == Parts(p[2..])[1..]
    ensures p[0] != '.' && !DoubleStar(p) ==>
              Parts(p)[0] == [p[0]] + Parts(p[1..])[0] && Parts(p)[1..] == Parts(p[1..])[1..]
    ensures p[0] == '.' ==> Parts(p) == [""] + Parts(p[1..])
  {
    var q := ReplacePair(p, '*', [MARK]);
    if DoubleStar(p) {
      assert q[1..] == ReplacePair(p[2..], '*', [MARK]);
    } else {
      assert q[1..] == ReplacePair(p[1..], '*', [MARK]);
    }
  }

  /** One more item in front, one more character in front of the label. */
  lemma RenderMore(item: Item, items: seq<Item>, c: char, part: string, after: string)
    requires Render(items) == Inner(part) + after
    requires ItemText(item) == if c == '*' then STAR else if c == MARK then ANY else [c]
    ensures Render([item] + items) == Inner([c] + part) + after
  {
    RenderFirst(item, items);
    InnerOfMore(c, part);
    Assoc(ItemText(item), Inner(part), after);
  }

  lemma RenderDot(items: seq<Item>, parts: seq<string>)
    requires parts != [] && Render(items) == Whole(parts[0]) + After(parts[1..])
    ensures Render([One('.')] + items) == After(parts)
  {
    RenderFirst(One('.'), items);
    Assoc(DOT, Whole(parts[0]), After(parts[1..]));
  }

  /** Inside a label, the rest of the pattern is rendered as the rest of the label and the labels
      after it. */
  lemma {:induction false} RenderInner(p: string)
    requires PatternOk(p)
    ensures Render(Items(p, false)) == Inner(Parts(p)[0]) + After(Parts(p)[1..])
    decreases p, 0
  {
    if p != "" {
      PartsStep(p);
      if DoubleStar(p) {
        RenderInner(p[2..]);
        RenderMore(Text, Items(p[2..], false), MARK, Parts(p[2..])[0], After(Parts(p)[1..]));
      } else if p[0] == '.' {
        RenderWhole(p[1..]);
        RenderDot(Items(p[1..], true), Parts(p[1..]));
      } else {
        RenderInner(p[1..]);
        assert p[0] in p;
        RenderMore(if p[0] == '*' then ManyChars else One(p[0]),
          Items(p[1..], false), p[0], Parts(p[1..])[0], After(Parts(p)[1..]));
      }
    }
  }

  lemma RenderFirst(item: Item, items: seq<Item>)
    ensures Render([item] + items) == ItemText(item) + Render(items)
  {
    assert ([item] + items)[1..] == items;
  }

  /** At the start of a label, the lone star rule applies to it. */
  lemma {:induction false} RenderWhole(p: string)
    requires PatternOk(p)
    ensures Render(Items(p, true)) == Whole(Parts(p)[0]) + After(Parts(p)[1..])
    decreases p, 1
  {
    if LoneStar(p) {
      LoneParts(p);
      RenderInner(p[1..]);
      RenderLone(Items(p[1..], false), After(Parts(p)[1..]));
    } else {
      NotLone(p);
      RenderInner(p);
    }
  }

  lemma LoneParts(p: string)
    requires LoneStar(p)
    ensures Parts(p)[0] == "*" && Parts(p[1..])[0] == "" && Parts(p)[1..] == Parts(p[1..])[1..]
  {
    PartsStep(p);
    if |p| > 1 { PartsStep(p[1..]); }
  }

  lemma RenderLone(items: seq<Item>, after: string)
    requires Render(items) == Inner("") + after
    ensures Render([SomeChars] + items) == Whole("*") + after
  {
    RenderFirst(SomeChars, items);
    ReplaceNone(PLUS, MARK, ANY);
    assert Inner("") + after == after;
  }

  lemma NotLone(p: string)
    requires !LoneStar(p)
    ensures Parts(p)[0] != "*" && Items(p, true) == Items(p, false)
  {
    if p != "" {
      PartsStep(p);
      if p[0] == '*' && p[1] != '*' {
        PartsStep(p[1..]);
        assert |Parts(p)[0]| >= 2;
      } else if p[0] != '.' {
        assert Parts(p)[0][0] != '*';
      }
    }
  }

  lemma RegexIsRendered(p: string)
    requires PatternOk(p) && '*' in p
    ensures RegexOf(p) == "^" + Render(Items(p, true)) + "$"
  {
    MarkReplacedInJoin(Parts(p));
    RenderWhole(p);
  }

  // ----- the built text is read back as the items

  function TokenOf(item: Item): Token {
    match item
    case One(c) => Lit(c)
    case SomeChars => LabelPlus
    case ManyChars => LabelStar
    case Text => AnyText
  }

  function TokensOf(items: seq<Item>): (toks: seq<Token>)
    ensures |toks| == |items|
  {
    if items == [] then [] else [TokenOf(items[0])] + TokensOf(items[1..])
  }

  predicate ItemOk(item: Item) { item.One? ==> item.c == '.' || Safe(item.c) }

  predicate ItemsOk(items: seq<Item>) { forall item :: item in items ==> ItemOk(item) }

  lemma {:induction false} ItemsAreOk(p: string, labelStart: bool)
    requires PatternOk(p)
    ensures ItemsOk(Items(p, labelStart))
    decreases p
  {
    if p != "" {
      assert p[0] in p;
      if DoubleStar(p) { ItemsAreOk(p[2..], false); }
      else { ItemsAreOk(p[1..], p[0] == '.'); }
    }
  }

  lemma TokenRead(item: Item, rest: string)
    requires ItemOk(item)
    ensures Tokens(ItemText(item) + rest) == [TokenOf(item)] + Tokens(rest)
  {
    var re := ItemText(item) + rest;
    assert re[|ItemText(item)|..] == rest;
    match item
    case SomeChars => assert PLUS <= re;
    case ManyChars =>
      assert STAR <= re;
      assert re[|STAR| - 1] == '*' != PLUS[|PLUS| - 1];
    case Text => TextRead(rest);
    case One(c) => if c == '.' { DotRead(rest); } else { PlainRead(c, rest); }
  }

  lemma TextRead(rest: string)
    ensures Tokens(ANY + rest) == [AnyText] + Tokens(rest)
  {
    var re := ANY + rest;
    assert re[0] == '.' && PLUS[0] == '[' && STAR[0] == '[';
    assert ANY <= re && re[|ANY|..] == rest;
  }

  lemma DotRead(rest: string)
    ensures Tokens(DOT + rest) == [Lit('.')] + Tokens(rest)
  {
    var re := DOT + rest;
    assert re[0] == '\\' && PLUS[0] == '[' && STAR[0] == '[' && ANY[0] == '.';
    assert DOT <= re && re[|DOT|..] == rest;
  }

  lemma PlainRead(c: char, rest: string)
    requires Safe(c)
    ensures Tokens([c] + rest) == [Lit(c)] + Tokens(rest)
  {
    var re := [c] + rest;
    assert re[0] == c && PLUS[0] == '[' && STAR[0] == '[' && ANY[0] == '.' && DOT[0] == '\\';
    assert re[1..] == rest;
  }

  lemma {:induction false} TokensRead(items: seq<Item>, rest: string)
    requires ItemsOk(items)
    ensures Tokens(Render(items) + rest) == TokensOf(items) + Tokens(rest)
    decreases items
  {
    if items == [] {
      assert Render(items) + rest == rest;
    } else {
      assert items[0] in items;
      TokensRead(items[1..], rest);
      Assoc(ItemText(items[0]), Render(items[1..]), rest);
      TokenRead(items[0], Render(items[1..]) + rest);
    }
  }

  // ----- matching is composing

  lemma {:induction false} MatchIsComposed(items: seq<Item>, s: string, pos: nat)
    requires pos <= |s| && OneLine(s)
    ensures Match(TokensOf(items) + [End], s, pos) <==> Composed(items, s[pos..])
    decreases items
  {
    var toks := TokensOf(items) + [End];
    if items == [] {
      assert toks == [End] && toks[1..] == [];
    } else {
      assert toks[1..] == TokensOf(items[1..]) + [End];
      if Match(toks, s, pos) { MatchComposes(items, s, pos); }
      if Composed(items, s[pos..]) { ComposedMatches(items, s, pos); }
    }
  }

  lemma {:induction false} MatchComposes(items: seq<Item>, s: string, pos: nat)
    requires items != [] && pos <= |s| && Match(TokensOf(items) + [End], s, pos) && OneLine(s)
    ensures Composed(items, s[pos..])
    decreases items, 0
  {
    var toks := TokensOf(items) + [End];
    assert toks[1..] == TokensOf(items[1..]) + [End];
    var k := MatchFirst(toks, items[0], s, pos);
    MatchIsComposed(items[1..], s, k);
    ComposedAfter(items, s, pos, k);
  }

  lemma MatchFirst(toks: seq<Token>, item: Item, s: string, pos: nat) returns (k: nat)
    requires toks != [] && toks[0] == TokenOf(item) && pos <= |s| && Match(toks, s, pos)
    ensures pos <= k <= |s| && ItemHas(item, s[pos..k]) && Match(toks[1..], s, k)
  {
    match item
    case One(c) => k := pos + 1;
    case SomeChars => k :| pos < k <= |s| && InLabel(s[pos..k]) && Match(toks[1..], s, k);
    case ManyChars => k :| pos <= k <= |s| && InLabel(s[pos..k]) && Match(toks[1..], s, k);
    case Text => k :| pos <= k <= |s| && OneLine(s[pos..k]) && Match(toks[1..], s, k);
  }

  lemma ComposedAfter(items: seq<Item>, s: string, pos: nat, k: nat)
    requires items != [] && pos <= k <= |s| && ItemHas(items[0], s[pos..k]) && Composed(items[1..], s[k..])
    ensures Composed(items, s[pos..])
  {
    var rest, j := s[pos..], k - pos;
    assert rest[..j] == s[pos..k] && rest[j..] == s[k..];
  }

  lemma {:induction false} ComposedMatches(items: seq<Item>, s: string, pos: nat)
    requires items != [] && pos <= |s| && Composed(items, s[pos..]) && OneLine(s)
    ensures Match(TokensOf(items) + [End], s, pos)
    decreases items, 0
  {
    var toks := TokensOf(items) + [End];
    assert toks[1..] == TokensOf(items[1..]) + [End];
    var k := ComposedFirst(items, s, pos);
    MatchIsComposed(items[1..], s, k);
    MatchAfter(toks, items[0], s, pos, k);
  }

  lemma ComposedFirst(items: seq<Item>, s: string, pos: nat) returns (k: nat)
    requires items != [] && pos <= |s| && Composed(items, s[pos..])
    ensures pos <= k <= |s| && ItemHas(items[0], s[pos..k]) && Composed(items[1..], s[k..])
  {
    var rest := s[pos..];
    var j :| 0 <= j <= |rest| && ItemHas(items[0], rest[..j]) && Composed(items[1..], rest[j..]);
    k := pos + j;
    assert rest[..j] == s[pos..k] && rest[j..] == s[k..];
  }

  lemma MatchAfter(toks: seq<Token>, item: Item, s: string, pos: nat, k: nat)
    requires toks != [] && toks[0] == TokenOf(item) && pos <= k <= |s| && OneLine(s)
    requires ItemHas(item, s[pos..k]) && Match(toks[1..], s, k)
    ensures Match(toks, s, pos)
  {
    if item.One? {
      assert |s[pos..k]| == 1;
      assert s[pos] == s[pos..k][0];
    }
  }

  // ----- main results

  /** For every accepted pattern with a wildcard and every one-line name, the built expression
      matches exactly the names the pattern stands for. */
  lemma RegexMeansGlob(pattern: string, name: string)
    requires PatternOk(pattern) && '*' in pattern && OneLine(name)
    ensures ReMatch(RegexOf(pattern), name) <==> InGlob(pattern, name)
  {
    var items := Items(pattern, true);
    RegexIsRendered(pattern);
    ItemsAreOk(pattern, true);
    AnchoredTokens(items);
    var toks := [Start] + (TokensOf(items) + [End]);
    assert toks[1..] == TokensOf(items) + [End];
    MatchIsComposed(items, name, 0);
    assert name[0..] == name;
  }

  lemma AnchoredTokens(items: seq<Item>)
    requires ItemsOk(items)
    ensures Tokens("^" + Render(items) + "$") == [Start] + (TokensOf(items) + [End])
  {
    Assoc("^", Render(items), "$");
    StartRead(Render(items) + "$");
    TokensRead(items, "$");
    EndRead();
  }

  lemma StartRead(rest: string)
    ensures Tokens("^" + rest) == [Start] + Tokens(rest)
  {
    var re := "^" + rest;
    assert re[0] == '^' && PLUS[0] == '[' && STAR[0] == '[' && ANY[0] == '.' && DOT[0] == '\\';
    assert re[1..] == rest;
  }

  lemma EndRead()
    ensures Tokens("$") == [End]
  {
    var re := "$";
    assert re[0] == '$' && PLUS[0] == '[' && STAR[0] == '[' && ANY[0] == '.' && DOT[0] == '\\';
    assert re[1..] == "";
  }

  /** Without a wildcard the expression is not anchored: it matches every name the pattern is a
      prefix of. */
  lemma PlainRegexMeansPrefix(pattern: string, name: string)
    requires PatternOk(pattern) && '*' !in pattern
    ensures ReMatch(RegexOf(pattern), name) <==> pattern <= name
  {
    PlainMatch(pattern, name, 0);
    assert name[0..] == name;
  }

  lemma {:induction false} PlainMatch(pattern: string, name: string, pos: nat)
    requires PatternOk(pattern) && '*' !in pattern && pos <= |name|
    ensures Match(Tokens(ReplaceChar(pattern, '.', DOT)), name, pos) <==> pattern <= name[pos..]
    decreases pattern
  {
    if pattern != "" {
      var c, rest := pattern[0], pattern[1..];
      assert c in pattern;
      TokenRead(One(c), ReplaceChar(rest, '.', DOT));
      var toks := [Lit(c)] + Tokens(ReplaceChar(rest, '.', DOT));
      assert toks[1..] == Tokens(ReplaceChar(rest, '.', DOT));
      if pos < |name| {
        PlainMatch(rest, name, pos + 1);
        assert name[pos..] == [name[pos]] + name[pos + 1..];
        assert pattern == [c] + rest;
      }
    }
  }

  /** The inclusion test, for a name against a pattern or a name (the branches for a name with
      wildcards compare sample text and are not modelled). */
  ghost predicate NameIsPartOf(domain: string, other: string)
    requires '*' !in domain
  {
    if '*' in other then ReMatch(RegexOf(other), domain) else domain == other
  }

  lemma {:induction false} PlainPatternIsItself(pattern: string, labelStart: bool, name: string)
    requires '*' !in pattern
    ensures Composed(Items(pattern, labelStart), name) <==> name == pattern
    decreases pattern
  {
    if pattern != "" {
      var items := Items(pattern, labelStart);
      forall k | 0 <= k <= |name| ensures Composed(items[1..], name[k..]) <==> name[k..] == pattern[1..] {
        PlainPatternIsItself(pattern[1..], pattern[0] == '.', name[k..]);
      }
      if name == pattern {
        assert name[..1] == [pattern[0]];
      }
      if Composed(items, name) {
        var k :| 0 <= k <= |name| && ItemHas(items[0], name[..k]) && Composed(items[1..], name[k..]);
        assert name == name[..k] + name[k..];
        assert pattern == [pattern[0]] + pattern[1..];
      }
    }
  }

  /** For a name without wildcards, the inclusion test decides membership. */
  lemma PartOfDecidesMembership(name: string, other: string)
    requires '*' !in name && OneLine(name) && PatternOk(other)
    ensures NameIsPartOf(name, other) <==> InGlob(other, name)
  {
    if '*' in other { RegexMeansGlob(other, name); } else { PlainPatternIsItself(other, true, name); }
  }
}
