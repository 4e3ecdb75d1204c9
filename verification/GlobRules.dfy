/** Rule patterns: the three replace passes that turn a glob into a regular expression. */
module GlobRules {
  import opened Text

  // ---- the three passes -------------------------------------------------------------------------

  /** The characters of the first pass's escape class. */
  predicate IsSpecial(c: char) {
    c in {'.', '+', '?', '^', '$', '{', '}', '(', ')', '|', '[', ']', '\\', '*'}
  }

  function Escape(pattern: string): string {
    if pattern == "" then ""
    else (if IsSpecial(pattern[0]) then ['\\', pattern[0]] else [pattern[0]]) + Escape(pattern[1..])
  }

  /** `replace` with a global regular expression that matches one literal text. */
  function ReplaceAll(s: string, text: string, sub: string): string
    requires text != ""
  {
    if s == "" then ""
    else if text <= s then sub + ReplaceAll(s[|text|..], text, sub)
    else [s[0]] + ReplaceAll(s[1..], text, sub)
  }

  /** The source text between `^` and `$` of the compiled expression. */
  function Compile(pattern: string): string {
    ReplaceAll(ReplaceAll(Escape(pattern), "\\*\\*", ".*"), "\\*", "[^.]+")
  }

  // ---- the regular expressions that come out ----------------------------------------------------

  /** A literal character, `.*` and `[^.]+`. */
  datatype Token = Lit(c: char) | AnyRun | SegmentRun

  datatype Parsed = Unsupported | Tokens(tokens: seq<Token>)

  function Cons(t: Token, rest: Parsed): Parsed {
    if rest.Unsupported? then rest else Tokens([t] + rest.tokens)
  }

  /** The characters that mean something of their own in a regular expression. */
  predicate IsSyntax(c: char) {
    || c == '^' || c == '$' || c == '\\' || c == '.' || c == '*' || c == '+' || c == '?' || c == '('
    || c == ')' || c == '[' || c == ']' || c == '{' || c == '}' || c == '|'
  }

  /** Reads an expression; `Unsupported` is any syntax other than the three token forms. */
  function Parse(src: string): Parsed
    decreases |src|
  {
    if src == "" then Tokens([])
    else if src[0] == '\\' then
      if |src| >= 2 && IsSyntax(src[1]) then Cons(Lit(src[1]), Parse(src[2..])) else Unsupported
    else if ".*" <= src then Cons(AnyRun, Parse(src[2..]))
    else if "[^.]+" <= src then Cons(SegmentRun, Parse(src[5..]))
    else if IsSyntax(src[0]) then Unsupported
    else Cons(Lit(src[0]), Parse(src[1..]))
  }

  /** What `.` does not match. */
  predicate IsLineEnd(c: char) { c == '\n' || c == '\r' || c == '\U{2028}' || c == '\U{2029}' }

  predicate OneLine(s: string) { forall k :: 0 <= k < |s| ==> !IsLineEnd(s[k]) }

  /** The whole of `s` is in the language of the token sequence. */
  predicate Matches(tokens: seq<Token>, s: string) {
    if tokens == [] then s == ""
    else
      match tokens[0]
      case Lit(c) => s != "" && s[0] == c && Matches(tokens[1..], s[1..])
      case AnyRun => exists k :: 0 <= k <= |s| && OneLine(s[..k]) && Matches(tokens[1..], s[k..])
      case SegmentRun => exists k :: 0 < k <= |s| && '.' !in s[..k] && Matches(tokens[1..], s[k..])
  }

  predicate Test(pattern: string, path: string) {
    Parse(Compile(pattern)).Tokens? && Matches(Parse(Compile(pattern)).tokens, path)
  }

  // ---- the passes produce the intended tokens, for every pattern --------------------------------

  /** What the documentation of a pattern means: `**` any run, `*` one segment, all else itself. */
  function Meaning(pattern: string): seq<Token> {
    if pattern == "" then []
    else if "**" <= pattern then [AnyRun] + Meaning(pattern[2..])
    else if pattern[0] == '*' then [SegmentRun] + Meaning(pattern[1..])
    else [Lit(pattern[0])] + Meaning(pattern[1..])
  }

  function Pass2(s: string): string { ReplaceAll(s, "\\*\\*", ".*") }

  function Pass3(s: string): string { ReplaceAll(s, "\\*", "[^.]+") }

  lemma EscapeFirst(pattern: string)
    requires pattern != ""
    ensures Escape(pattern) != "" && Escape(pattern)[0] != '*'
    ensures "\\*" <= Escape(pattern) <==> pattern[0] == '*'
    ensures pattern[0] == '*' ==> Escape(pattern)[2..] == Escape(pattern[1..])
  {
    var e, rest := Escape(pattern), Escape(pattern[1..]);
    if IsSpecial(pattern[0]) {
      assert e == ['\\', pattern[0]] + rest;
      assert e[..2] == ['\\', pattern[0]] && e[2..] == rest;
      assert "\\*" <= e <==> e[..2] == "\\*";
      assert "\\*"[1] == '*' && e[..2][1] == pattern[0];
    } else {
      assert e == [pattern[0]] + rest;
      assert e[0] != "\\*"[0];
    }
  }

  lemma ReplacePastTwo(a: char, b: char, rest: string, text: string, sub: string)
    requires text != "" && !(text <= [a, b] + rest) && !(text <= [b] + rest)
    ensures ReplaceAll([a, b] + rest, text, sub) == [a, b] + ReplaceAll(rest, text, sub)
  {
    assert ([a, b] + rest)[1..] == [b] + rest;
    assert ([b] + rest)[1..] == rest;
    assert ReplaceAll([b] + rest, text, sub) == [b] + ReplaceAll(rest, text, sub);
  }

  lemma PairIsPrefix(a: char, b: char, s: string)
    ensures [a, b] <= s <==> |s| >= 2 && s[0] == a && s[1] == b
  {
    if |s| >= 2 {
      assert s[..2] == [s[0], s[1]];
    }
  }

  lemma EscapedStarPairIsPrefix(s: string)
    ensures "\\*\\*" <= s <==> |s| >= 4 && s[0] == '\\' && s[1] == '*' && s[2] == '\\' && s[3] == '*'
  {
    if |s| >= 4 {
      assert s[..4] == [s[0], s[1], s[2], s[3]];
    }
  }

  lemma Pass2First(pattern: string)
    requires pattern != "" && !("**" <= pattern)
    ensures Pass2(Escape(pattern)) == (if IsSpecial(pattern[0]) then ['\\', pattern[0]] else [pattern[0]])
                                      + Pass2(Escape(pattern[1..]))
  {
    var e, c, rest := Escape(pattern), pattern[0], Escape(pattern[1..]);
    if IsSpecial(c) {
      assert e == ['\\', c] + rest;
      assert c == '*' ==> !("\\*" <= rest) by {
        PairIsPrefix('*', '*', pattern);
        if pattern[1..] != "" { EscapeFirst(pattern[1..]); }
      }
      NoStarPair(c, rest);
      ReplacePastTwo('\\', c, rest, "\\*\\*", ".*");
    } else {
      assert e == [c] + rest && e[1..] == rest;
      EscapedStarPairIsPrefix(e);
    }
  }

  lemma NoStarPair(c: char, rest: string)
    requires c == '*' ==> !("\\*" <= rest)
    requires rest != "" ==> rest[0] != '*'
    ensures !("\\*\\*" <= ['\\', c] + rest) && !("\\*\\*" <= [c] + rest)
  {
    EscapedStarPairIsPrefix(['\\', c] + rest);
    EscapedStarPairIsPrefix([c] + rest);
    PairIsPrefix('\\', '*', rest);
  }

  lemma {:induction false} Pass2Start(pattern: string)
    ensures Pass2(Escape(pattern)) != "" ==> Pass2(Escape(pattern))[0] != '*'
  {
    if pattern != "" {
      if "**" <= pattern {
        EscapedStars(pattern);
      } else {
        Pass2First(pattern);
      }
    }
  }

  lemma EscapedStars(pattern: string)
    requires "**" <= pattern
    ensures Pass2(Escape(pattern)) == ".*" + Pass2(Escape(pattern[2..]))
  {
    EscapeFirst(pattern);
    EscapeFirst(pattern[1..]);
    assert pattern[1..][1..] == pattern[2..];
    var e := Escape(pattern);
    assert e == "\\*\\*" + Escape(pattern[2..]);
    assert e[4..] == Escape(pattern[2..]);
  }

  // What the third pass makes of what the second can leave in front, and how that reads.

  lemma RunReads(rest: string)
    ensures Parse(Pass3(".*" + rest)) == Cons(AnyRun, Parse(Pass3(rest)))
  {
    PairIsPrefix('\\', '*', ['.', '*'] + rest);
    PairIsPrefix('\\', '*', ['*'] + rest);
    ReplacePastTwo('.', '*', rest, "\\*", "[^.]+");
    assert ".*" == ['.', '*'];
    assert (".*" + Pass3(rest))[2..] == Pass3(rest);
  }

  lemma StarReads(rest: string)
    ensures Parse(Pass3("\\*" + rest)) == Cons(SegmentRun, Parse(Pass3(rest)))
  {
    assert ("\\*" + rest)[2..] == rest;
    PairIsPrefix('.', '*', "[^.]+" + Pass3(rest));
    assert ("[^.]+" + Pass3(rest))[5..] == Pass3(rest);
  }

  lemma EscapedReads(c: char, rest: string)
    requires IsSpecial(c) && c != '*' && (rest != "" ==> rest[0] != '*')
    ensures Parse(Pass3(['\\', c] + rest)) == Cons(Lit(c), Parse(Pass3(rest)))
  {
    PairIsPrefix('\\', '*', ['\\', c] + rest);
    PairIsPrefix('\\', '*', [c] + rest);
    ReplacePastTwo('\\', c, rest, "\\*", "[^.]+");
    assert (['\\', c] + Pass3(rest))[2..] == Pass3(rest);
  }

  lemma PlainReads(c: char, rest: string)
    requires !IsSpecial(c)
    ensures Parse(Pass3([c] + rest)) == Cons(Lit(c), Parse(Pass3(rest)))
  {
    PairIsPrefix('\\', '*', [c] + rest);
    assert ([c] + rest)[1..] == rest;
    assert ([c] + Pass3(rest))[1..] == Pass3(rest);
    assert ([c] + Pass3(rest))[0] == c;
  }

  lemma {:induction false} CompileMeansPattern(pattern: string)
    ensures Parse(Compile(pattern)) == Tokens(Meaning(pattern))
  {
    assert Compile(pattern) == Pass3(Pass2(Escape(pattern)));
    if pattern != "" {
      if "**" <= pattern {
        EscapedStars(pattern);
        assert Compile(pattern[2..]) == Pass3(Pass2(Escape(pattern[2..])));
        CompileMeansPattern(pattern[2..]);
        RunReads(Pass2(Escape(pattern[2..])));
      } else {
        Pass2First(pattern);
        Pass2Start(pattern[1..]);
        assert Compile(pattern[1..]) == Pass3(Pass2(Escape(pattern[1..])));
        CompileMeansPattern(pattern[1..]);
        hide Pass2, Pass3, Escape, Parse, Compile;
        var c, rest := pattern[0], Pass2(Escape(pattern[1..]));
        if c == '*' {
          assert ['\\', c] == "\\*";
          StarReads(rest);
        } else if IsSpecial(c) {
          EscapedReads(c, rest);
        } else {
          PlainReads(c, rest);
        }
      }
    }
  }

  // ---- matching segment by segment --------------------------------------------------------------

  datatype Segment = Star | DoubleStar | Plain(text: string)

  function Written(p: Segment): string {
    match p case Star => "*" case DoubleStar => "**" case Plain(text) => text
  }

  /** A pattern whose wildcards fill whole segments. */
  predicate WholeSegments(ps: seq<Segment>) {
    ps != [] && forall i :: 0 <= i < |ps| && ps[i].Plain? ==> '.' !in ps[i].text && '*' !in ps[i].text
  }

  function Glob(ps: seq<Segment>): string {
    Join(seq(|ps|, i requires 0 <= i < |ps| => Written(ps[i])), ".")
  }

  predicate PathSegments(qs: seq<string>) {
    qs != [] && forall i :: 0 <= i < |qs| ==> qs[i] != "" && '.' !in qs[i]
  }

  predicate EachOneLine(qs: seq<string>) { forall i :: 0 <= i < |qs| ==> OneLine(qs[i]) }

  /** `*` stands for exactly one segment, `**` for one or more, all of them free of line ends. */
  predicate SegmentMatch(ps: seq<Segment>, qs: seq<string>) {
    if ps == [] then qs == []
    else
      match ps[0]
      case Plain(text) => qs != [] && qs[0] == text && SegmentMatch(ps[1..], qs[1..])
      case Star => qs != [] && SegmentMatch(ps[1..], qs[1..])
      case DoubleStar => exists k :: 1 <= k <= |qs| && EachOneLine(qs[..k]) && SegmentMatch(ps[1..], qs[k..])
  }

  function Lits(s: string): seq<Token> { seq(|s|, i requires 0 <= i < |s| => Lit(s[i])) }

  function TokensOf(ps: seq<Segment>): seq<Token> {
    if ps == [] then []
    else
      var first := match ps[0] case Star => [SegmentRun] case DoubleStar => [AnyRun] case Plain(text) => Lits(text);
      if |ps| == 1 then first else first + ([Lit('.')] + TokensOf(ps[1..]))
  }

  /** The token that a pattern begins with, and how many of its characters make it. */
  function FirstToken(s: string): (Token, nat)
    requires s != ""
  {
    if s[0] != '*' then (Lit(s[0]), 1) else if |s| >= 2 && s[1] == '*' then (AnyRun, 2) else (SegmentRun, 1)
  }

  lemma MeaningStep(s: string)
    requires s != ""
    ensures var (t, n) := FirstToken(s); n <= |s| && Meaning(s) == [t] + Meaning(s[n..])
  {
    PairIsPrefix('*', '*', s);
  }

  lemma FirstOfAppend(a: string, t: string)
    requires a != "" && t != "" && t[0] != '*'
    ensures FirstToken(a + t) == FirstToken(a) && FirstToken(a).1 <= |a|
    ensures (a + t)[FirstToken(a).1..] == a[FirstToken(a).1..] + t
  {
    assert (a + t)[0] == a[0] && (a + t)[1] == if |a| > 1 then a[1] else t[0];
  }

  /** No token reaches over a character that is no star. */
  lemma {:induction false} MeaningOfAppend(a: string, t: string)
    requires t != "" && t[0] != '*'
    ensures Meaning(a + t) == Meaning(a) + Meaning(t)
  {
    if a == "" {
      assert a + t == t && Meaning(a) == [];
    } else {
      var (f, n) := FirstToken(a);
      MeaningStep(a);
      MeaningStep(a + t);
      FirstOfAppend(a, t);
      hide Meaning, FirstToken;
      MeaningOfAppend(a[n..], t);
      var x, r := Meaning(a[n..]), Meaning(t);
      assert [f] + (x + r) == ([f] + x) + r;
    }
  }

  lemma MeaningAroundDot(a: string, b: string)
    ensures Meaning(a + "." + b) == Meaning(a) + ([Lit('.')] + Meaning(b))
  {
    MeaningOfAppend(a, "." + b);
    MeaningStep("." + b);
    assert ("." + b)[1..] == b && a + "." + b == a + ("." + b);
  }

  lemma {:induction false} MeaningOfPlain(text: string)
    requires '*' !in text
    ensures Meaning(text) == Lits(text)
  {
    if text != "" {
      MeaningOfPlain(text[1..]);
      assert Lits(text) == [Lit(text[0])] + Lits(text[1..]);
    }
  }

  lemma MeaningOfSegment(p: Segment)
    requires p.Plain? ==> '*' !in p.text
    ensures Meaning(Written(p)) == TokensOf([p])
  {
    match p
    case Plain(text) => MeaningOfPlain(text);
    case Star => assert "*"[1..] == "";
    case DoubleStar => assert "**"[2..] == "";
  }

  lemma {:induction false} MeaningOfGlob(ps: seq<Segment>)
    requires WholeSegments(ps)
    ensures Meaning(Glob(ps)) == TokensOf(ps)
  {
    var texts := seq(|ps|, i requires 0 <= i < |ps| => Written(ps[i]));
    MeaningOfSegment(ps[0]);
    if |ps| > 1 {
      var rest := ps[1..];
      assert texts[1..] == seq(|rest|, i requires 0 <= i < |rest| => Written(rest[i]));
      MeaningAroundDot(Written(ps[0]), Glob(rest));
      MeaningOfGlob(rest);
    }
  }

  lemma {:induction false} MatchesLits(l: string, rest: seq<Token>, s: string)
    ensures Matches(Lits(l) + rest, s) <==> l <= s && Matches(rest, s[|l|..])
  {
    if l == "" {
      assert Lits(l) + rest == rest && s[0..] == s;
    } else {
      assert (Lits(l) + rest)[1..] == Lits(l[1..]) + rest;
      if s != "" {
        MatchesLits(l[1..], rest, s[1..]);
        assert l <= s <==> l[0] == s[0] && l[1..] <= s[1..];
      }
    }
  }

  lemma {:induction false} MatchesRun(run: Token, rest: seq<Token>, s: string)
    requires !run.Lit?
    ensures Matches([run] + rest, s)
       <==> exists k :: 0 <= k <= |s| && (if run.AnyRun? then OneLine(s[..k]) else k > 0 && '.' !in s[..k])
                        && Matches(rest, s[k..])
  {
    assert ([run] + rest)[1..] == rest;
  }

  lemma MatchesDot(rest: seq<Token>, s: string)
    ensures Matches([Lit('.')] + rest, s) <==> s != "" && s[0] == '.' && Matches(rest, s[1..])
  {
    assert ([Lit('.')] + rest)[1..] == rest;
  }

  /** The same, for what is left of a text from position `k` on. */
  lemma MatchesDotAt(rest: seq<Token>, s: string, k: nat)
    requires k <= |s|
    ensures Matches([Lit('.')] + rest, s[k..]) <==> k < |s| && s[k] == '.' && Matches(rest, s[k + 1..])
  {
    MatchesDot(rest, s[k..]);
    if k < |s| {
      assert s[k..][1..] == s[k + 1..];
    }
  }

  /** Where the first segment of a joined path ends. */
  lemma JoinedFirst(qs: seq<string>)
    requires PathSegments(qs)
    ensures var s, n := Join(qs, "."), |qs[0]|;
            && n <= |s| && s[..n] == qs[0]
            && (|qs| == 1 ==> s == qs[0])
            && (|qs| > 1 ==> n < |s| && s[n] == '.' && s[n + 1..] == Join(qs[1..], ".") && PathSegments(qs[1..]))
  {
  }

  /** Every dot of a joined path stands between two of its segments. */
  lemma {:induction false} DotSplits(qs: seq<string>, k: nat) returns (j: nat)
    requires PathSegments(qs) && k < |Join(qs, ".")| && Join(qs, ".")[k] == '.'
    ensures 0 < j < |qs|
    ensures Join(qs, ".")[..k] == Join(qs[..j], ".") && Join(qs, ".")[k + 1..] == Join(qs[j..], ".")
  {
    JoinedFirst(qs);
    var s, n := Join(qs, "."), |qs[0]|;
    assert forall i :: 0 <= i < n ==> s[i] == qs[0][i];
    if k == n {
      j := 1;
      assert qs[..1] == [qs[0]];
    } else {
      var tail := Join(qs[1..], ".");
      assert s[n + 1..][k - n - 1] == s[k];
      var i := DotSplits(qs[1..], k - n - 1);
      j := i + 1;
      assert qs[1..][i..] == qs[j..] && tail[k - n..] == s[k + 1..];
      JoinedHead(qs, i);
      hide Join;
      assert s == qs[0] + "." + tail;
      assert s[..k] == qs[0] + "." + tail[..k - n - 1];
    }
  }

  lemma JoinedHead(qs: seq<string>, i: nat)
    requires 0 < i < |qs|
    ensures Join(qs[..i + 1], ".") == qs[0] + "." + Join(qs[1..][..i], ".")
  {
    assert qs[..i + 1][1..] == qs[1..][..i];
  }

  lemma SplitsAtDot(qs: seq<string>, j: nat)
    requires PathSegments(qs) && 0 < j < |qs|
    ensures var s, k := Join(qs, "."), |Join(qs[..j], ".")|;
            k < |s| && s[k] == '.' && s[..k] == Join(qs[..j], ".") && s[k + 1..] == Join(qs[j..], ".")
  {
    assert qs == qs[..j] + qs[j..];
    JoinOfAppend(qs[..j], qs[j..], ".");
  }

  lemma {:induction false} OneLineOfJoin(qs: seq<string>)
    ensures OneLine(Join(qs, ".")) <==> EachOneLine(qs)
  {
    if |qs| == 1 {
      assert EachOneLine(qs) <==> OneLine(qs[0]);
    } else if |qs| > 1 {
      var rest := Join(qs[1..], ".");
      OneLineOfJoin(qs[1..]);
      OneLineOfParts(qs[0] + ".", rest);
      OneLineOfParts(qs[0], ".");
      assert EachOneLine(qs) <==> OneLine(qs[0]) && EachOneLine(qs[1..]) by {
        assert forall i :: 0 < i < |qs| ==> qs[i] == qs[1..][i - 1];
      }
    }
  }

  lemma OneLineOfParts(a: string, b: string)
    ensures OneLine(a + b) <==> OneLine(a) && OneLine(b)
  {
    assert forall k :: 0 <= k < |a| ==> a[k] == (a + b)[k];
    assert forall k :: 0 <= k < |b| ==> b[k] == (a + b)[|a| + k];
  }

  // The last segment of a pattern against a joined path.

  lemma PlainIsLast(text: string, qs: seq<string>)
    requires WholeSegments([Plain(text)]) && PathSegments(qs)
    ensures Matches(Lits(text), Join(qs, ".")) <==> SegmentMatch([Plain(text)], qs)
  {
    var s := Join(qs, ".");
    JoinedFirst(qs);
    MatchesLits(text, [], s);
    hide Join;
    assert Lits(text) + [] == Lits(text);
    assert Matches(Lits(text), s) <==> s == text;
    assert |qs| > 1 ==> '.' in s;
  }

  lemma StarIsLast(qs: seq<string>)
    requires PathSegments(qs)
    ensures Matches([SegmentRun], Join(qs, ".")) <==> SegmentMatch([Star], qs)
  {
    var s := Join(qs, ".");
    JoinedFirst(qs);
    MatchesRun(SegmentRun, [], s);
    assert [SegmentRun] + [] == [SegmentRun] && s[..|s|] == s;
    assert Matches([], s[|s|..]);
    assert |qs| > 1 ==> '.' in s;
  }

  lemma DoubleStarIsLast(qs: seq<string>)
    requires PathSegments(qs)
    ensures Matches([AnyRun], Join(qs, ".")) <==> SegmentMatch([DoubleStar], qs)
  {
    var s := Join(qs, ".");
    MatchesRun(AnyRun, [], s);
    OneLineOfJoin(qs);
    hide Join, OneLine, EachOneLine;
    assert [AnyRun] + [] == [AnyRun] && s[..|s|] == s && qs[..|qs|] == qs;
    assert Matches([], s[|s|..]) && SegmentMatch([], qs[|qs|..]);
  }

  lemma LastSegmentMatches(p: Segment, qs: seq<string>)
    requires WholeSegments([p]) && PathSegments(qs)
    ensures Matches(TokensOf([p]), Join(qs, ".")) <==> SegmentMatch([p], qs)
  {
    match p
    case Plain(text) => PlainIsLast(text, qs);
    case Star => StarIsLast(qs);
    case DoubleStar => DoubleStarIsLast(qs);
  }

  // Tokens in front of a dot and the rest of the pattern.

  lemma PlainThenRest(text: string, rest: seq<Token>, qs: seq<string>)
    requires '.' !in text && PathSegments(qs)
    ensures Matches(Lits(text) + ([Lit('.')] + rest), Join(qs, "."))
       <==> |qs| > 1 && qs[0] == text && Matches(rest, Join(qs[1..], "."))
  {
    var s := Join(qs, ".");
    JoinedFirst(qs);
    MatchesLits(text, [Lit('.')] + rest, s);
    if text <= s {
      hide Join, Matches;
      MatchesDotAt(rest, s, |text|);
      if |s| > |text| && s[|text|] == '.' {
        var j := DotSplits(qs, |text|);
        assert s[..|text|] == text == Join(qs[..j], ".");
        JoinedFirst(qs[..j]);
        assert j == 1 && qs[..j][0] == qs[0];
      }
    }
  }

  lemma StarThenRest(rest: seq<Token>, qs: seq<string>)
    requires PathSegments(qs)
    ensures Matches([SegmentRun] + ([Lit('.')] + rest), Join(qs, "."))
       <==> |qs| > 1 && Matches(rest, Join(qs[1..], "."))
  {
    var s, n := Join(qs, "."), |qs[0]|;
    JoinedFirst(qs);
    MatchesRun(SegmentRun, [Lit('.')] + rest, s);
    hide Join, Matches;
    if k :| 0 < k <= |s| && '.' !in s[..k] && Matches([Lit('.')] + rest, s[k..]) {
      MatchesDotAt(rest, s, k);
      var j := DotSplits(qs, k);
      JoinedFirst(qs[..j]);
      assert j == 1 && qs[..1] == [qs[0]] && k == n;
    }
    if |qs| > 1 && Matches(rest, Join(qs[1..], ".")) {
      MatchesDotAt(rest, s, n);
      assert 0 < n <= |s| && '.' !in s[..n] && Matches([Lit('.')] + rest, s[n..]);
    }
  }

  lemma RunEndsAtASegment(rest: seq<Token>, qs: seq<string>, k: nat) returns (j: nat)
    requires PathSegments(qs) && k <= |Join(qs, ".")|
    requires OneLine(Join(qs, ".")[..k]) && Matches([Lit('.')] + rest, Join(qs, ".")[k..])
    ensures 0 < j < |qs| && EachOneLine(qs[..j]) && Matches(rest, Join(qs[j..], "."))
  {
    hide Join, Matches, OneLine, EachOneLine;
    MatchesDotAt(rest, Join(qs, "."), k);
    j := DotSplits(qs, k);
    OneLineOfJoin(qs[..j]);
  }

  lemma SegmentsMakeARun(rest: seq<Token>, qs: seq<string>, j: nat) returns (k: nat)
    requires PathSegments(qs) && 0 < j < |qs| && EachOneLine(qs[..j]) && Matches(rest, Join(qs[j..], "."))
    ensures k <= |Join(qs, ".")|
    ensures OneLine(Join(qs, ".")[..k]) && Matches([Lit('.')] + rest, Join(qs, ".")[k..])
  {
    hide Join, Matches, OneLine, EachOneLine;
    SplitsAtDot(qs, j);
    OneLineOfJoin(qs[..j]);
    k := |Join(qs[..j], ".")|;
    MatchesDotAt(rest, Join(qs, "."), k);
  }

  lemma DoubleStarThenRest(rest: seq<Token>, qs: seq<string>)
    requires PathSegments(qs)
    ensures Matches([AnyRun] + ([Lit('.')] + rest), Join(qs, "."))
       <==> exists j :: 0 < j < |qs| && EachOneLine(qs[..j]) && Matches(rest, Join(qs[j..], "."))
  {
    var s := Join(qs, ".");
    MatchesRun(AnyRun, [Lit('.')] + rest, s);
    hide Join, Matches, OneLine, EachOneLine, PathSegments;
    if k :| 0 <= k <= |s| && OneLine(s[..k]) && Matches([Lit('.')] + rest, s[k..]) {
      var j := RunEndsAtASegment(rest, qs, k);
    }
    if j :| 0 < j < |qs| && EachOneLine(qs[..j]) && Matches(rest, Join(qs[j..], ".")) {
      var k := SegmentsMakeARun(rest, qs, j);
    }
  }

  lemma {:induction false} TokensMatchSegments(ps: seq<Segment>, qs: seq<string>)
    requires WholeSegments(ps) && PathSegments(qs)
    ensures Matches(TokensOf(ps), Join(qs, ".")) <==> SegmentMatch(ps, qs)
    decreases |ps|
  {
    if |ps| == 1 {
      assert ps == [ps[0]];
      LastSegmentMatches(ps[0], qs);
    } else {
      var rest := TokensOf(ps[1..]);
      forall j | 0 < j < |qs|
        ensures Matches(rest, Join(qs[j..], ".")) <==> SegmentMatch(ps[1..], qs[j..])
      {
        TokensMatchSegments(ps[1..], qs[j..]);
      }
      assert !SegmentMatch(ps[1..], []);
      match ps[0]
      case Plain(text) => PlainThenRest(text, rest, qs);
      case Star => StarThenRest(rest, qs);
      case DoubleStar =>
        DoubleStarThenRest(rest, qs);
        assert qs[|qs|..] == [];
    }
  }

  // ---- main result ------------------------------------------------------------------------------

  /** The compiled expression accepts a dotted path exactly when the segments match. */
  lemma GlobCompilerIsCorrect(ps: seq<Segment>, qs: seq<string>)
    requires WholeSegments(ps) && PathSegments(qs)
    ensures Parse(Compile(Glob(ps))).Tokens?
    ensures Test(Glob(ps), Join(qs, ".")) <==> SegmentMatch(ps, qs)
  {
    CompileMeansPattern(Glob(ps));
    MeaningOfGlob(ps);
    TokensMatchSegments(ps, qs);
  }

  /** A key with a line end in it escapes the `**` rules, which are meant to match any depth; `*` takes it. */
  lemma DoubleStarStopsAtLineEnd()
    ensures !Test("memory.**", "memory.a\nb") && Test("memory.*", "memory.a\nb")
  {
    var key := "a\nb";
    assert IsLineEnd(key[1]);
    OneSegment(key);
    hide Test, SegmentMatch;
    MemoryRule(DoubleStar, key);
    MemoryRule(Star, key);
    assert "memory" + "." + key == "memory.a\nb";
    assert "memory" + "." + "**" == "memory.**" && "memory" + "." + "*" == "memory.*";
  }

  lemma OneSegment(key: string)
    ensures SegmentMatch([Star], [key])
    ensures SegmentMatch([DoubleStar], [key]) <==> OneLine(key)
  {
    var keys := [key];
    assert keys[..1] == keys && |keys[1..]| == 0;
    assert EachOneLine(keys) <==> OneLine(keys[0]);
    if OneLine(key) {
      assert EachOneLine(keys[..1]) && SegmentMatch([], keys[1..]);
    }
  }

  lemma MemoryRule(wild: Segment, key: string)
    requires !wild.Plain? && key != "" && '.' !in key
    ensures Test("memory" + "." + Written(wild), "memory" + "." + key) <==> SegmentMatch([wild], [key])
  {
    var ps, qs := [Plain("memory"), wild], ["memory", key];
    JoinOfTwo("memory", Written(wild));
    JoinOfTwo("memory", key);
    assert seq(|ps|, i requires 0 <= i < |ps| => Written(ps[i])) == ["memory", Written(wild)];
    assert qs[1..] == [key] && ps[1..] == [wild];
    hide Join, Written, Test;
    GlobCompilerIsCorrect(ps, qs);
  }

  lemma JoinOfTwo(a: string, b: string)
    ensures Join([a, b], ".") == a + "." + b
  {
    assert [a, b][1..] == [b];
  }
}
