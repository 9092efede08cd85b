/**
 Scanning a text for a site, and substituting in it, seen on the text's tokens.
 */
module PinScan {
  import opened Options
  import opened Pins
  import opened PinTokens
  import opened PinMatching

  /** The values of the leftmost non-overlapping matches. */
  function FoundTokens(pin: Pin, template: Template, tokens: seq<string>): seq<string>
    decreases |tokens|
  {
    match MatchTokens(pin, template, tokens)
    case None => if tokens == [] then [] else FoundTokens(pin, template, tokens[1..])
    case Some(h) =>
      (if h.at == 0 || Cut(pin, FrameOf(pin, template), tokens[h.at]).None? then []
       else [ValueIn(tokens[h.at], Cut(pin, FrameOf(pin, template), tokens[h.at]).value)])
      + FoundTokens(pin, template, tokens[h.width..])
  }

  /** A token with its value replaced. */
  function Refilled(pin: Pin, f: Frame, token: string, value: string): string {
    match Cut(pin, f, token)
    case None => token
    case Some(c) => Refill(token, c, value)
  }

  /** The same matches with their values replaced. */
  function SwapTokens(pin: Pin, template: Template, tokens: seq<string>, value: string): (r: seq<string>)
    ensures |r| == |tokens|
    decreases |tokens|
  {
    match MatchTokens(pin, template, tokens)
    case None => if tokens == [] then [] else [tokens[0]] + SwapTokens(pin, template, tokens[1..], value)
    case Some(h) =>
      tokens[..h.width][h.at := Refilled(pin, FrameOf(pin, template), tokens[h.at], value)]
      + SwapTokens(pin, template, tokens[h.width..], value)
  }

  // ------------------------------------------------------------ where a match begins

  /** A match begins with the template's first token, and its value is not in that token. */
  lemma FirstToken(pin: Pin, template: Template, tokens: seq<string>)
    requires ValidTemplate(pin, template) && FitTokens(pin, template, tokens).Some?
    ensures tokens != [] && Tokens(pin, template.text) != [] && tokens[0] == Tokens(pin, template.text)[0]
    ensures FitTokens(pin, template, tokens).value.at > 0
    ensures FrameOf(pin, template).open ==>
      FitTokens(pin, template, tokens).value.width == FitTokens(pin, template, tokens).value.at + 1
    decreases template
  {
    hide Cut, GapTokens;
    match template
    case Piece(t, Value, rest) =>
      NoTail(pin);
    case Piece(t, gap, rest) =>
      NotEmptyTokens(pin, t);
      var k := LeadTokens(pin, t, gap, tokens).value;
      FirstToken(pin, rest, tokens[k..]);
  }

  lemma NotEmptyTokens(pin: Pin, t: string)
    requires t != ""
    ensures Tokens(pin, t) != []
  {
  }

  /** How far into the first token a match begins. */
  function Offset(pin: Pin, template: Template, tokens: seq<string>): (n: nat)
    requires tokens != []
    ensures n <= |tokens[0]|
  {
    if |Trimmed(pin, template, tokens)[0]| <= |tokens[0]| then |tokens[0]| - |Trimmed(pin, template, tokens)[0]| else 0
  }

  lemma TrimmedParts(pin: Pin, template: Template, tokens: seq<string>)
    requires Canonical(pin, tokens) && tokens != []
    ensures
      var us, n := Trimmed(pin, template, tokens), Offset(pin, template, tokens);
      && Canonical(pin, us) && Flatten(tokens)[n..] == Flatten(us) && us == [tokens[0][n..]] + tokens[1..]
      && Flatten(tokens) == tokens[0][..n] + Flatten(us)
      && n < |tokens[0]|
  {
    hide *;
    TokenKinds(pin, tokens, 0);
    OpeningIsRun(pin, template);
    TrimmedIs(pin, template, tokens);
    SuffixTokens(pin, tokens, Offset(pin, template, tokens));
  }

  lemma TrimmedIs(pin: Pin, template: Template, tokens: seq<string>)
    requires tokens != [] && tokens[0] != ""
    ensures
      var n := Offset(pin, template, tokens);
      n < |tokens[0]| && Trimmed(pin, template, tokens) == [tokens[0][n..]] + tokens[1..]
  {
    hide Opening;
    var y := Opening(pin, template);
    if y != "" && EndsWith(tokens[0], y) {
      assert Trimmed(pin, template, tokens) == [y] + tokens[1..];
      assert Offset(pin, template, tokens) == |tokens[0]| - |y|;
    } else {
      assert Trimmed(pin, template, tokens) == tokens == [tokens[0]] + tokens[1..];
      assert Offset(pin, template, tokens) == 0 && tokens[0][0..] == tokens[0];
    }
  }

  lemma OpeningIsRun(pin: Pin, template: Template)
    ensures Opening(pin, template) == "" || IsRun(pin, Opening(pin, template))
  {
  }

  /** A text from inside its first token on. */
  lemma SuffixTokens(pin: Pin, tokens: seq<string>, p: nat)
    requires Canonical(pin, tokens) && tokens != [] && p < |tokens[0]|
    ensures
      var us := [tokens[0][p..]] + tokens[1..];
      && Canonical(pin, us) && Flatten(us) == Flatten(tokens)[p..] && Flatten(tokens) == tokens[0][..p] + Flatten(us)
      && (p > 0 ==> IsRun(pin, tokens[0]) && IsRun(pin, us[0]))
  {
    var us := [tokens[0][p..]] + tokens[1..];
    assert us[1..] == tokens[1..];
    assert Flatten(tokens) == tokens[0] + Flatten(tokens[1..]);
    assert tokens[0] == tokens[0][..p] + tokens[0][p..];
  }

  /** Within the first token a match begins nowhere else. */
  lemma FitInToken(pin: Pin, template: Template, tokens: seq<string>, p: nat)
    requires ValidPattern(pin) && ValidTemplate(pin, template) && Canonical(pin, tokens) && tokens != [] && p < |tokens[0]|
    ensures p < |Flatten(tokens)| && Fit(pin, template, Flatten(tokens)[p..]).Some? ==>
      MatchTokens(pin, template, tokens).Some? && p == Offset(pin, template, tokens)
  {
    hide Canonical, Flatten, Fit, FitTokens, ValidTemplate, ValidPattern, SameFit, Tokens;
    var us := [tokens[0][p..]] + tokens[1..];
    SuffixTokens(pin, tokens, p);
    FitsAlike(pin, template, us);
    SameFitParts(pin, template, us);
    if FitTokens(pin, template, us).Some? {
      FirstToken(pin, template, us);
      var first := Tokens(pin, template.text)[0];
      TokensCanonical(pin, template.text);
      TokenKinds(pin, Tokens(pin, template.text), 0);
      assert us[0] == first == tokens[0][p..];
      if p == 0 {
        assert tokens[0][0..] == tokens[0] && us == tokens;
        assert Opening(pin, template) != "" ==> Opening(pin, template) == tokens[0];
        assert Trimmed(pin, template, tokens) == tokens;
      } else {
        assert Opening(pin, template) == first;
        assert Trimmed(pin, template, tokens) == us;
      }
    }
  }

  // ------------------------------------------------------------ skipping

  /** A stretch in which no match begins is skipped. */
  lemma {:induction false} Skip(pin: Pin, site: Site, s: string, n: nat, value: string)
    requires n <= |s| && forall p: nat :: p < n ==> Fit(pin, site.template, s[p..]).None?
    ensures Found(pin, site, s) == Found(pin, site, s[n..])
    ensures Swapped(pin, site, s, value) == s[..n] + Swapped(pin, site, s[n..], value)
    decreases n
  {
    hide Fit;
    if n == 0 {
      assert s[0..] == s;
      assert s[..0] + Swapped(pin, site, s, value) == Swapped(pin, site, s, value);
    } else {
      forall p: nat | p < n - 1
        ensures Fit(pin, site.template, s[1..][p..]).None?
      {
        assert s[1..][p..] == s[p + 1..];
      }
      Skip(pin, site, s[1..], n - 1, value);
      assert s[0..] == s;
      SkipOne(pin, site, s, value);
      FrontAndRest(s, n, Swapped(pin, site, s[n..], value));
    }
  }

  lemma SkipOne(pin: Pin, site: Site, s: string, value: string)
    requires s != "" && Fit(pin, site.template, s).None?
    ensures Found(pin, site, s) == Found(pin, site, s[1..])
    ensures Swapped(pin, site, s, value) == [s[0]] + Swapped(pin, site, s[1..], value)
  {
    hide Fit;
  }

  lemma FrontAndRest(s: string, n: nat, x: string)
    requires 0 < n <= |s|
    ensures s[1..][n - 1..] == s[n..] && [s[0]] + (s[1..][..n - 1] + x) == s[..n] + x
  {
    assert [s[0]] + s[1..][..n - 1] == s[..n];
  }

  /** No match begins inside a run when the template begins outside the class. */
  lemma SkipRun(pin: Pin, site: Site, run: string, s: string, value: string)
    requires ValidTemplate(pin, site.template) && Opening(pin, site.template) == "" && AllIn(pin, run)
    ensures Found(pin, site, run + s) == Found(pin, site, s)
    ensures Swapped(pin, site, run + s, value) == run + Swapped(pin, site, s, value)
  {
    hide Fit;
    var t := run + s;
    FirstIsSep(pin, site.template);
    forall p: nat | p < |run|
      ensures Fit(pin, site.template, t[p..]).None?
    {
      TextFirst(pin, site.template, t[p..]);
      assert t[p..][0] == run[p];
    }
    Skip(pin, site, t, |run|, value);
    assert t[|run|..] == s && t[..|run|] == run;
  }

  lemma FirstIsSep(pin: Pin, template: Template)
    requires ValidTemplate(pin, template)
    ensures template.text != ""
    ensures Opening(pin, template) == "" ==> !pin.inClass(template.text[0])
  {
    if template.text != "" && pin.inClass(template.text[0]) {
      TokensCanonical(pin, template.text);
      TokensFlatten(pin, template.text);
      TokenKinds(pin, Tokens(pin, template.text), 0);
      FlattenHead(pin, Tokens(pin, template.text));
    }
  }

  // ------------------------------------------------------------ one match

  /** A text around a match: what is before the value's token, the token, what the match covers
      after it, and the rest. */
  lemma AroundMatch(tokens: seq<string>, at: nat, width: nat)
    requires at < width <= |tokens|
    ensures Flatten(tokens) == Flatten(tokens[..at]) + (tokens[at] + (Flatten(tokens[at + 1..width]) + Flatten(tokens[width..])))
    ensures |Flatten(tokens[..width])| == |Flatten(tokens[..at])| + |tokens[at]| + |Flatten(tokens[at + 1..width])|
  {
    var mid, rest := tokens[at + 1..width], tokens[width..];
    assert tokens == tokens[..at] + ([tokens[at]] + (mid + rest));
    FlattenConcat(tokens[..at], [tokens[at]] + (mid + rest));
    FlattenConcat([tokens[at]], mid + rest);
    FlattenConcat(mid, rest);
    FlattenOne(tokens[at]);
    assert tokens[..width] == tokens[..at] + ([tokens[at]] + mid);
    FlattenConcat(tokens[..at], [tokens[at]] + mid);
    FlattenConcat([tokens[at]], mid);
  }

  /** Cutting a text at a match: the value, and what is left and right of it. */
  lemma CutText(p: string, t: string, m: string, r: string, c: Span, end: nat)
    requires c.from <= c.to <= |t|
    requires end == |p| + |t| + |m| || (m == "" && end == |p| + c.to)
    ensures
      var s := p + (t + (m + r));
      && |p| + c.from <= |p| + c.to <= end <= |s|
      && s[|p| + c.from..|p| + c.to] == t[c.from..c.to]
      && s[..|p| + c.from] == p + t[..c.from]
      && (end == |p| + |t| + |m| ==> s[|p| + c.to..end] == t[c.to..] + m && s[end..] == r)
      && (m == "" && end == |p| + c.to ==> s[|p| + c.to..end] == "" && s[end..] == t[c.to..] + r)
  {
    var s, y := p + (t + (m + r)), t + (m + r);
    assert s == p + (t[..c.from] + (t[c.from..c.to] + (t[c.to..] + (m + r)))) by {
      InThree(t, c.from, c.to);
      Regroup(t[..c.from], t[c.from..c.to], t[c.to..], m + r);
    }
    ThreeWays(p + t[..c.from], t[c.from..c.to], t[c.to..] + (m + r));
    Regroup(p, t[..c.from], t[c.from..c.to], t[c.to..] + (m + r));
    Regroup("", t[c.to..], m, r);
    if end == |p| + |t| + |m| {
      ThreeWays(p + t[..c.to], t[c.to..] + m, r);
      Whole(p, t, m, r, c.to);
    }
    if m == "" && end == |p| + c.to {
      assert m + r == r;
      ThreeWays(p + t[..c.to], "", t[c.to..] + r);
      Whole(p, t, m, r, c.to);
    }
  }

  lemma InThree(t: string, i: nat, j: nat)
    requires i <= j <= |t|
    ensures t == t[..i] + (t[i..j] + t[j..])
  {
  }

  lemma Regroup(a: string, b: string, c: string, d: string)
    ensures (a + (b + c)) + d == a + (b + (c + d)) == (a + b) + (c + d)
  {
  }

  lemma Whole(p: string, t: string, m: string, r: string, k: nat)
    requires k <= |t|
    ensures p + (t + (m + r)) == (p + t[..k]) + ((t[k..] + m) + r)
  {
    assert t == t[..k] + t[k..];
  }

  /** A text in three parts. */
  lemma ThreeWays(a: string, b: string, c: string)
    ensures
      var s := a + (b + c);
      s[..|a|] == a && s[|a|..|a| + |b|] == b && s[|a| + |b|..] == c
  {
  }

  lemma UnfoldFound(pin: Pin, site: Site, s: string, value: string, h: Hit)
    requires Fit(pin, site.template, s) == Some(h) && 0 < h.end && h.from <= h.to <= h.end <= |s|
    ensures Found(pin, site, s) == [s[h.from..h.to]] + Found(pin, site, s[h.end..])
    ensures Swapped(pin, site, s, value) == s[..h.from] + value + s[h.to..h.end] + Swapped(pin, site, s[h.end..], value)
  {
    hide Fit;
  }

  lemma MatchScans(pin: Pin, site: Site, us: seq<string>, h: TokenHit, value: string)
    requires ValidPattern(pin) && ValidSite(pin, site) && Canonical(pin, us)
    requires FitTokens(pin, site.template, us) == Some(h)
    ensures h.at < h.width <= |us| && Cut(pin, FrameOf(pin, site.template), us[h.at]).Some?
    ensures
      var c, rest := Cut(pin, FrameOf(pin, site.template), us[h.at]).value, Flatten(us[h.width..]);
      && Found(pin, site, Flatten(us)) == [ValueIn(us[h.at], c)] + Found(pin, site, rest)
      && Swapped(pin, site, Flatten(us), value) ==
         Flatten(us[..h.at]) + (Refill(us[h.at], c, value) + (Flatten(us[h.at + 1..h.width]) + Swapped(pin, site, rest, value)))
  {
    hide *;
    SiteParts(pin, site);
    FitsAlike(pin, site.template, us);
    SameFitParts(pin, site.template, us);
    FirstToken(pin, site.template, us);
    AroundMatch(us, h.at, h.width);
    var f := Fit(pin, site.template, Flatten(us)).value;
    var p, t, m, r := Flatten(us[..h.at]), us[h.at], Flatten(us[h.at + 1..h.width]), Flatten(us[h.width..]);
    var c := Cut(pin, FrameOf(pin, site.template), t).value;
    LocatedIs(pin, site.template, us, h, f);
    if FrameOf(pin, site.template).open {
      assert us[h.at + 1..h.width] == [];
      NothingFlat();
    }
    CutText(p, t, m, r, c, f.end);
    CutNotEmpty(pin, FrameOf(pin, site.template), t);
    UnfoldFound(pin, site, Flatten(us), value, f);
    if FrameOf(pin, site.template).open {
      JunkIsRun(pin, us, h.at, c);
      SkipRun(pin, site, t[c.to..], r, value);
    }
    RefillIs(t, c, value);
    Assemble(p, t[..c.from], value, t[c.to..], m, Swapped(pin, site, r, value));
  }

  lemma SiteParts(pin: Pin, site: Site)
    requires ValidSite(pin, site)
    ensures ValidTemplate(pin, site.template)
    ensures FrameOf(pin, site.template).open ==> Opening(pin, site.template) == ""
  {
  }

  lemma LocatedIs(pin: Pin, template: Template, tokens: seq<string>, th: TokenHit, h: Hit)
    requires th.at < th.width <= |tokens| && Cut(pin, FrameOf(pin, template), tokens[th.at]).Some?
    requires Located(pin, template, tokens, th, h)
    ensures
      var c := Cut(pin, FrameOf(pin, template), tokens[th.at]).value;
      && h.from == |Flatten(tokens[..th.at])| + c.from && h.to == |Flatten(tokens[..th.at])| + c.to
      && h.end == |Flatten(tokens[..th.width])| - (if FrameOf(pin, template).open then |tokens[th.at]| - c.to else 0)
  {
    hide Cut, Flatten, FrameOf;
  }

  lemma CutNotEmpty(pin: Pin, f: Frame, t: string)
    requires ValidPattern(pin) && Cut(pin, f, t).Some?
    ensures Cut(pin, f, t).value.to > 0
  {
  }

  /** What an open match leaves of the value's run is a run. */
  lemma JunkIsRun(pin: Pin, tokens: seq<string>, at: nat, c: Span)
    requires ValidPattern(pin) && Canonical(pin, tokens) && at < |tokens|
    requires 0 < c.to <= |tokens[at]|
    ensures AllIn(pin, tokens[at][c.to..])
  {
    TokenKinds(pin, tokens, at);
  }

  lemma RefillIs(t: string, c: Span, value: string)
    requires c.from <= c.to <= |t|
    ensures Refill(t, c, value) == t[..c.from] + value + t[c.to..] && ValueIn(t, c) == t[c.from..c.to]
  {
  }

  lemma Assemble(p: string, a: string, v: string, b: string, m: string, r: string)
    ensures (p + a) + v + (b + m) + r == p + ((a + v + b) + (m + r))
    ensures m == "" ==> (p + a) + v + "" + (b + r) == p + ((a + v + b) + (m + r))
  {
  }

  // ------------------------------------------------------------ the whole scan

  lemma NoMatchScans(pin: Pin, site: Site, tokens: seq<string>, value: string)
    requires ValidPattern(pin) && ValidSite(pin, site) && Canonical(pin, tokens) && tokens != []
    requires MatchTokens(pin, site.template, tokens).None?
    ensures Found(pin, site, Flatten(tokens)) == Found(pin, site, Flatten(tokens[1..]))
    ensures Swapped(pin, site, Flatten(tokens), value) == tokens[0] + Swapped(pin, site, Flatten(tokens[1..]), value)
  {
    hide *;
    SiteParts(pin, site);
    FlattenHead(pin, tokens);
    FlattenFirst(tokens);
    var s := Flatten(tokens);
    forall p: nat | p < |tokens[0]|
      ensures Fit(pin, site.template, s[p..]).None?
    {
      FitInToken(pin, site.template, tokens, p);
    }
    Skip(pin, site, s, |tokens[0]|, value);
  }

  lemma MatchAtFront(pin: Pin, site: Site, tokens: seq<string>, h: TokenHit, value: string)
    requires ValidPattern(pin) && ValidSite(pin, site) && Canonical(pin, tokens)
    requires MatchTokens(pin, site.template, tokens) == Some(h)
    ensures 0 < h.at < h.width <= |tokens| && Cut(pin, FrameOf(pin, site.template), tokens[h.at]).Some?
    ensures
      var c, rest := Cut(pin, FrameOf(pin, site.template), tokens[h.at]).value, Flatten(tokens[h.width..]);
      && Found(pin, site, Flatten(tokens)) == [ValueIn(tokens[h.at], c)] + Found(pin, site, rest)
      && Swapped(pin, site, Flatten(tokens), value) ==
         Flatten(tokens[..h.at]) + (Refill(tokens[h.at], c, value) + (Flatten(tokens[h.at + 1..h.width]) + Swapped(pin, site, rest, value)))
  {
    hide *;
    MatchUnfold(pin, site.template, tokens);
    SiteParts(pin, site);
    TrimmedParts(pin, site.template, tokens);
    var us, n, s := Trimmed(pin, site.template, tokens), Offset(pin, site.template, tokens), Flatten(tokens);
    forall p: nat | p < n
      ensures Fit(pin, site.template, s[p..]).None?
    {
      FitInToken(pin, site.template, tokens, p);
    }
    FlattenFirst(tokens);
    Skip(pin, site, s, n, value);
    FirstToken(pin, site.template, us);
    MatchScans(pin, site, us, h, value);
    SameBehind(tokens, us, h.at, h.width, n);
    FrontOf(tokens[0], Flatten(tokens[1..]), n);
    AssociateFour(tokens[0][..n], Flatten(us[..h.at]),
                  Refill(us[h.at], Cut(pin, FrameOf(pin, site.template), us[h.at]).value, value)
                  + (Flatten(us[h.at + 1..h.width]) + Swapped(pin, site, Flatten(us[h.width..]), value)));
  }

  lemma FrontOf(t: string, r: string, n: nat)
    requires n <= |t|
    ensures (t + r)[..n] == t[..n]
  {
  }

  lemma AssociateFour(a: string, b: string, c: string)
    ensures a + (b + c) == (a + b) + c
  {
  }

  lemma MatchUnfold(pin: Pin, template: Template, tokens: seq<string>)
    requires MatchTokens(pin, template, tokens).Some?
    ensures tokens != [] && MatchTokens(pin, template, tokens) == FitTokens(pin, template, Trimmed(pin, template, tokens))
  {
    hide FitTokens;
  }

  lemma SameBehind(tokens: seq<string>, us: seq<string>, at: nat, width: nat, n: nat)
    requires tokens != [] && n <= |tokens[0]| && us == [tokens[0][n..]] + tokens[1..] && 0 < at < width <= |tokens|
    ensures us[at] == tokens[at] && us[at + 1..width] == tokens[at + 1..width] && us[width..] == tokens[width..]
    ensures tokens[0][..n] + Flatten(us[..at]) == Flatten(tokens[..at])
  {
    assert us[..at] == [tokens[0][n..]] + tokens[1..at];
    assert tokens[..at] == [tokens[0]] + tokens[1..at];
    assert us[..at][1..] == tokens[1..at] == tokens[..at][1..];
    assert tokens[0] == tokens[0][..n] + tokens[0][n..];
  }

  lemma SwapUnfold(pin: Pin, template: Template, tokens: seq<string>, h: TokenHit, value: string)
    requires MatchTokens(pin, template, tokens) == Some(h) && 0 < h.at < h.width <= |tokens|
    requires Cut(pin, FrameOf(pin, template), tokens[h.at]).Some?
    ensures
      var c := Cut(pin, FrameOf(pin, template), tokens[h.at]).value;
      && FoundTokens(pin, template, tokens) == [ValueIn(tokens[h.at], c)] + FoundTokens(pin, template, tokens[h.width..])
      && SwapTokens(pin, template, tokens, value) ==
         tokens[..h.at] + ([Refill(tokens[h.at], c, value)] + (tokens[h.at + 1..h.width] + SwapTokens(pin, template, tokens[h.width..], value)))
  {
    hide MatchTokens, Cut, FrameOf;
    var f := FrameOf(pin, template);
    assert tokens[..h.width][h.at := Refilled(pin, f, tokens[h.at], value)]
        == tokens[..h.at] + ([Refilled(pin, f, tokens[h.at], value)] + tokens[h.at + 1..h.width]);
  }

  lemma FlattenFour(a: seq<string>, t: string, m: seq<string>, r: seq<string>)
    ensures Flatten(a + ([t] + (m + r))) == Flatten(a) + (t + (Flatten(m) + Flatten(r)))
  {
    FlattenConcat(a, [t] + (m + r));
    FlattenConcat([t], m + r);
    FlattenConcat(m, r);
    FlattenOne(t);
  }

  /** Scanning text and scanning tokens find the same values and make the same text. */
  lemma {:induction false} ScansAlike(pin: Pin, site: Site, tokens: seq<string>, value: string)
    requires ValidPattern(pin) && ValidSite(pin, site) && Canonical(pin, tokens)
    ensures Found(pin, site, Flatten(tokens)) == FoundTokens(pin, site.template, tokens)
    ensures Swapped(pin, site, Flatten(tokens), value) == Flatten(SwapTokens(pin, site.template, tokens, value))
    decreases |tokens|
  {
    hide *;
    match MatchTokens(pin, site.template, tokens)
    case None =>
      NoMatchUnfold(pin, site, tokens, value);
      if tokens != [] {
        NoMatchScans(pin, site, tokens, value);
        CanonicalRest(pin, tokens, 1);
        ScansAlike(pin, site, tokens[1..], value);
        FlattenFirst([tokens[0]] + SwapTokens(pin, site.template, tokens[1..], value));
      }
    case Some(h) =>
      MatchAtFront(pin, site, tokens, h, value);
      SwapUnfold(pin, site.template, tokens, h, value);
      CanonicalRest(pin, tokens, h.width);
      ScansAlike(pin, site, tokens[h.width..], value);
      FlattenFour(tokens[..h.at], Refill(tokens[h.at], Cut(pin, FrameOf(pin, site.template), tokens[h.at]).value, value),
                  tokens[h.at + 1..h.width], SwapTokens(pin, site.template, tokens[h.width..], value));
  }

  lemma NoMatchUnfold(pin: Pin, site: Site, tokens: seq<string>, value: string)
    requires MatchTokens(pin, site.template, tokens).None?
    ensures tokens == [] ==>
      && Found(pin, site, Flatten(tokens)) == FoundTokens(pin, site.template, tokens) == []
      && Swapped(pin, site, Flatten(tokens), value) == Flatten(SwapTokens(pin, site.template, tokens, value)) == ""
    ensures tokens != [] ==>
      && FoundTokens(pin, site.template, tokens) == FoundTokens(pin, site.template, tokens[1..])
      && SwapTokens(pin, site.template, tokens, value) == [tokens[0]] + SwapTokens(pin, site.template, tokens[1..], value)
  {
    hide MatchTokens, Fit, Cut;
  }
}
