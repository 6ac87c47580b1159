/** The board's two text filters (adapters/storage/alerts.py, _alert_filter_clause): the
    escaped search box and the unescaped vehicle filter, against the like predicate of
    ISO/IEC 9075-2, section 8.5, with backslash as the escape character. */
module TextSearch {
  import opened Common

  // ---- Escaping ----

  predicate Meta(c: char) {
    c == '\\' || c == '%' || c == '_'
  }

  /** Replacing every occurrence of one character. */
  function Replace(s: string, c: char, sub: string): string {
    if s == "" then "" else (if s[0] == c then sub else [s[0]]) + Replace(s[1..], c, sub)
  }

  /** The three replaces in the order the code makes them: backslash first. */
  function Escape(text: string): string {
    Replace(Replace(Replace(text, '\\', "\\\\"), '%', "\\%"), '_', "\\_")
  }

  function EscapeChar(c: char): string {
    if Meta(c) then ['\\', c] else [c]
  }

  ghost function EscapeEach(text: string): string {
    if text == "" then "" else EscapeChar(text[0]) + EscapeEach(text[1..])
  }

  lemma ReplaceConcat(a: string, b: string, c: char, sub: string)
    ensures Replace(a + b, c, sub) == Replace(a, c, sub) + Replace(b, c, sub)
  {
    if a == "" {
      assert a + b == b;
    } else {
      assert (a + b)[1..] == a[1..] + b;
      ReplaceConcat(a[1..], b, c, sub);
    }
  }

  lemma ReplaceOne(x: char, c: char, sub: string)
    ensures Replace([x], c, sub) == if x == c then sub else [x]
  {
    assert Replace([x][1..], c, sub) == "";
  }

  lemma ReplaceTwo(x: char, y: char, c: char, sub: string)
    ensures Replace([x, y], c, sub) == (if x == c then sub else [x]) + (if y == c then sub else [y])
  {
    ReplaceOne(x, c, sub);
    ReplaceOne(y, c, sub);
    ReplaceConcat([x], [y], c, sub);
    assert [x] + [y] == [x, y];
  }

  lemma EscapeOne(x: char)
    ensures Escape([x]) == EscapeChar(x)
  {
    ReplaceOne(x, '\\', "\\\\");
    ReplaceTwo('\\', '\\', '%', "\\%");
    ReplaceTwo('\\', '\\', '_', "\\_");
    ReplaceOne(x, '%', "\\%");
    ReplaceTwo('\\', '%', '_', "\\_");
    ReplaceOne(x, '_', "\\_");
  }

  /** The sequence of replaces escapes each metacharacter once and nothing else. */
  lemma {:induction false} EscapeIsCharwise(text: string)
    ensures Escape(text) == EscapeEach(text)
  {
    if text != "" {
      var head, tail := [text[0]], text[1..];
      assert text == head + tail;
      var a, b := Replace(head, '\\', "\\\\"), Replace(tail, '\\', "\\\\");
      ReplaceConcat(head, tail, '\\', "\\\\");
      ReplaceConcat(a, b, '%', "\\%");
      ReplaceConcat(Replace(a, '%', "\\%"), Replace(b, '%', "\\%"), '_', "\\_");
      EscapeOne(text[0]);
      EscapeIsCharwise(tail);
    }
  }

  // ---- LIKE ----

  datatype Token = Lit(c: char) | AnyOne | AnyRun

  datatype Pattern = Tokens(ts: seq<Token>) | BadEscape

  function Then(t: Token, p: Pattern): Pattern {
    match p
    case Tokens(ts) => Tokens([t] + ts)
    case BadEscape => BadEscape
  }

  /** An escape takes the next character literally; one at the very end is an error. */
  function Parse(p: string): Pattern {
    if p == "" then Tokens([])
    else if p[0] == '\\' then
      if |p| == 1 then BadEscape else Then(Lit(p[1]), Parse(p[2..]))
    else if p[0] == '%' then Then(AnyRun, Parse(p[1..]))
    else if p[0] == '_' then Then(AnyOne, Parse(p[1..]))
    else Then(Lit(p[0]), Parse(p[1..]))
  }

  predicate Matches(ts: seq<Token>, s: string)
    decreases |ts| + |s|
  {
    if ts == [] then s == ""
    else
      match ts[0]
      case Lit(c) => s != "" && s[0] == c && Matches(ts[1..], s[1..])
      case AnyOne => s != "" && Matches(ts[1..], s[1..])
      case AnyRun => Matches(ts[1..], s) || (s != "" && Matches(ts, s[1..]))
  }

  predicate Like(s: string, pattern: string) {
    match Parse(pattern)
    case Tokens(ts) => Matches(ts, s)
    case BadEscape => false
  }

  ghost function Literals(text: string): (r: seq<Token>)
    ensures |r| == |text|
  {
    if text == "" then [] else [Lit(text[0])] + Literals(text[1..])
  }

  lemma MatchesLiterals(text: string, ts: seq<Token>, s: string)
    ensures Matches(Literals(text) + ts, s) <==> text <= s && Matches(ts, s[|text|..])
  {
    if text == "" {
      assert Literals(text) + ts == ts && s[0..] == s;
    } else {
      assert (Literals(text) + ts)[1..] == Literals(text[1..]) + ts;
      if s != "" && s[0] == text[0] {
        MatchesLiterals(text[1..], ts, s[1..]);
        assert text == [text[0]] + text[1..] && s == [s[0]] + s[1..];
        if |text| <= |s| {
          assert s[1..][|text| - 1..] == s[|text|..];
        }
      }
    }
  }

  lemma MatchesRun(ts: seq<Token>, s: string)
    ensures Matches([AnyRun] + ts, s) <==> exists i | 0 <= i <= |s| :: Matches(ts, s[i..])
    decreases |s|
  {
    assert ([AnyRun] + ts)[1..] == ts && s[0..] == s;
    if s != "" {
      MatchesRun(ts, s[1..]);
      forall i | 0 < i <= |s| ensures s[i..] == s[1..][i - 1..] {}
      forall i | 0 <= i < |s| ensures s[1..][i..] == s[i + 1..] {}
      if Matches([AnyRun] + ts, s[1..]) {
        var i :| 0 <= i <= |s[1..]| && Matches(ts, s[1..][i..]);
        assert Matches(ts, s[i + 1..]);
      }
    }
  }

  lemma RunMatchesAll(s: string)
    ensures Matches([AnyRun], s)
  {
    MatchesRun([], s);
    assert [AnyRun] + [] == [AnyRun];
    assert Matches([], s[|s|..]);
  }

  /** Literal text between two wildcards matches exactly the strings containing it. */
  lemma SurroundedLiterals(text: string, s: string)
    ensures Matches([AnyRun] + (Literals(text) + [AnyRun]), s) <==> Contains(s, text)
  {
    var ts := Literals(text) + [AnyRun];
    MatchesRun(ts, s);
    forall i | 0 <= i <= |s|
      ensures Matches(ts, s[i..]) <==> OccursAt(s, text, i)
    {
      MatchesLiterals(text, [AnyRun], s[i..]);
      if i <= |s| - |text| {
        RunMatchesAll(s[i..][|text|..]);
        assert s[i..][..|text|] == s[i..i + |text|];
      }
    }
  }

  lemma ParseEscaped(text: string, rest: string)
    requires Parse(rest).Tokens?
    ensures Parse(EscapeEach(text) + rest) == Tokens(Literals(text) + Parse(rest).ts)
  {
    if text == "" {
      assert EscapeEach(text) + rest == rest;
      assert Literals(text) + Parse(rest).ts == Parse(rest).ts;
    } else {
      ParseEscaped(text[1..], rest);
      var more := EscapeEach(text[1..]) + rest;
      assert EscapeEach(text) + rest == EscapeChar(text[0]) + more;
      ParseEscapedChar(text[0], more);
      LiteralsCons(text, Parse(rest).ts);
    }
  }

  lemma ParseEscapedChar(c: char, more: string)
    ensures Parse(EscapeChar(c) + more) == Then(Lit(c), Parse(more))
  {
    var e := EscapeChar(c);
    assert (e + more)[|e|..] == more;
  }

  lemma LiteralsCons(text: string, ts: seq<Token>)
    requires text != ""
    ensures [Lit(text[0])] + (Literals(text[1..]) + ts) == Literals(text) + ts
  {
  }

  lemma ParseWildcard()
    ensures Parse("%") == Tokens([AnyRun])
  {
    assert "%"[1..] == "";
  }

  /** The search box: a percent sign, the escaped text and a percent sign match a string
      exactly when the string contains the text, for every text. */
  lemma EscapedSearchIsContains(text: string, s: string)
    ensures Like(s, "%" + Escape(text) + "%") <==> Contains(s, text)
  {
    EscapeIsCharwise(text);
    ParseWildcard();
    ParseEscaped(text, "%");
    var p := "%" + Escape(text) + "%";
    assert p[1..] == EscapeEach(text) + "%";
    SurroundedLiterals(text, s);
  }

  // ---- The vehicle filter, which does not escape ----

  predicate PlainText(text: string) {
    forall i | 0 <= i < |text| :: !Meta(text[i])
  }

  /** The shortest string a pattern matches, with an x wherever any character will do. */
  ghost function Instance(ts: seq<Token>): string {
    if ts == [] then ""
    else
      (match ts[0]
       case Lit(c) => [c]
       case AnyOne => "x"
       case AnyRun => "") + Instance(ts[1..])
  }

  lemma InstanceMatches(ts: seq<Token>)
    ensures Matches(ts, Instance(ts))
  {
    if ts != [] {
      InstanceMatches(ts[1..]);
      match ts[0]
      case Lit(c) => assert Instance(ts)[1..] == Instance(ts[1..]);
      case AnyOne => assert Instance(ts)[1..] == Instance(ts[1..]);
      case AnyRun => assert Instance(ts) == Instance(ts[1..]);
    }
  }

  lemma InstanceThen(t: Token, p: Pattern)
    requires p.Tokens?
    ensures Instance(Then(t, p).ts) ==
            (match t case Lit(c) => [c] case AnyOne => "x" case AnyRun => "") + Instance(p.ts)
  {
    assert ([t] + p.ts)[1..] == p.ts;
  }

  /** The closing wildcard keeps the pattern well formed, and the shortest match is the
      text itself only when nothing in it is special. */
  lemma ShortestMatch(text: string)
    ensures var p := Parse(text + "%");
            && p.Tokens? && |Instance(p.ts)| <= |text|
            && (Instance(p.ts) == text <==> PlainText(text))
    decreases |text|
  {
    var p := text + "%";
    if text == "" {
      ParseWildcard();
      assert p == "%" && [AnyRun][1..] == [];
    } else if text[0] == '\\' && |text| == 1 {
      assert p == "\\%" && p[2..] == "";
      InstanceThen(Lit('%'), Tokens([]));
      assert Meta(text[0]);
    } else if text[0] == '\\' {
      assert p[2..] == text[2..] + "%";
      ShortestMatch(text[2..]);
      InstanceThen(Lit(text[1]), Parse(text[2..] + "%"));
      assert Meta(text[0]);
    } else {
      assert p[1..] == text[1..] + "%";
      ShortestMatch(text[1..]);
      var t := if text[0] == '%' then AnyRun else if text[0] == '_' then AnyOne else Lit(text[0]);
      InstanceThen(t, Parse(text[1..] + "%"));
      PlainTail(text);
      assert text == [text[0]] + text[1..];
    }
  }

  lemma PlainTail(text: string)
    requires text != ""
    ensures PlainText(text) <==> !Meta(text[0]) && PlainText(text[1..])
  {
    forall i | 0 < i < |text| ensures text[i] == text[1..][i - 1] {}
  }

  lemma PlainEscapesToItself(text: string)
    requires PlainText(text)
    ensures EscapeEach(text) == text
  {
    if text != "" {
      PlainTail(text);
      PlainEscapesToItself(text[1..]);
      assert text == [text[0]] + text[1..];
    }
  }

  /** The vehicle filter interpolates the text unescaped, so it selects by substring for
      every vehicle name exactly when the text holds no percent sign, underscore or
      backslash. */
  lemma UnescapedFilterIsContainsIffPlain(text: string)
    ensures (forall s :: Like(s, "%" + text + "%") <==> Contains(s, text)) <==> PlainText(text)
  {
    if PlainText(text) {
      PlainEscapesToItself(text);
      EscapeIsCharwise(text);
      forall s ensures Like(s, "%" + text + "%") <==> Contains(s, text) {
        EscapedSearchIsContains(text, s);
      }
    } else {
      ShortestMatch(text);
      var ts := Parse(text + "%").ts;
      var s := Instance(ts);
      assert ("%" + text + "%")[1..] == text + "%";
      InstanceMatches(ts);
      MatchesRun(ts, s);
      assert s[0..] == s;
      assert Like(s, "%" + text + "%");
      assert !Contains(s, text);
    }
  }

  /** The wildcards: an underscore stands for one character, a percent sign for any number; and a
      pattern that ends in a single backslash selects nothing. */
  lemma WildcardsMean(s: string)
    ensures Like(s, "_") <==> |s| == 1
    ensures Like(s, "%")
    ensures !Like(s, "\\")
  {
    assert "_"[1..] == "" && "%"[1..] == "";
    assert Parse("_") == Tokens([AnyOne]) && [AnyOne][1..] == [];
    assert Parse("%") == Tokens([AnyRun]);
    RunMatchesAll(s);
    assert s != "" ==> (Matches([AnyOne][1..], s[1..]) <==> s[1..] == "");
  }
}
