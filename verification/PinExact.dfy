/**
 When exactly a written value reads back at a site, over all texts: unless the literal after
 the value holds, whole or cut off, another copy of the site filled with that value.
 */
module PinExact {
  import opened Options
  import opened Pins
  import opened PinTokens
  import opened PinMatching
  import opened PinScan
  import opened PinWrites
  import opened PinRoundTrip

  /** A value between two literals, the template beginning outside the class. */
  ghost predicate Simple(pin: Pin, template: Template) {
    && ValidPattern(pin) && ValidTemplate(pin, template)
    && template.Piece? && template.gap.Value? && template.rest.text != ""
    && Opening(pin, template) == ""
  }

  function Before(pin: Pin, template: Template): seq<string>
  {
    BeforeOf(pin, template.text)
  }

  function After(pin: Pin, template: Template): seq<string>
  {
    if template.Piece? then AfterOf(pin, template.rest.text) else []
  }

  /** The run a value makes with what the literals add to it. */
  function Run(pin: Pin, template: Template, u: string): string {
    FrameOf(pin, template).head + u + FrameOf(pin, template).tail
  }

  /** The site filled with a value. */
  function Filled(pin: Pin, template: Template, u: string): seq<string>
  {
    Before(pin, template) + [Run(pin, template, u)] + After(pin, template)
  }

  /** From token d on the literal after the value is the site filled with `w`, as far as it
      goes, and that is at least to the value. */
  predicate CopyAt(pin: Pin, template: Template, w: string, d: nat)
  {
    var a := After(pin, template);
    d + |Before(pin, template)| < |a| && a[d..] <= Filled(pin, template, w)
  }

  ghost predicate HoldsCopy(pin: Pin, template: Template, w: string)
  {
    exists d: nat :: CopyAt(pin, template, w, d)
  }

  /** No run of the literal before the value could be the site's value. */
  ghost predicate BeforeHoldsNone(pin: Pin, template: Template)
  {
    forall k :: 0 <= k < |Before(pin, template)| ==> Cut(pin, FrameOf(pin, template), Before(pin, template)[k]).None?
  }

  // ------------------------------------------------------------ matches of a simple template

  lemma SimpleMatch(pin: Pin, template: Template, tokens: seq<string>)
    requires Simple(pin, template)
    ensures
      var b, a, m := Before(pin, template), After(pin, template), MatchTokens(pin, template, tokens);
      && !FrameOf(pin, template).open
      && m == if b <= tokens && |b| < |tokens| && Cut(pin, FrameOf(pin, template), tokens[|b|]).Some? && a <= tokens[|b| + 1..]
              then Some(TokenHit(|b|, |b| + 1 + |a|)) else None
  {
    hide ValidPattern, BeforeOf, AfterOf, HeadOf, TailOf, Cut;
    ValueTokensUnfold(pin, template.text, template.rest.text, tokens);
    assert template == Piece(template.text, Value, End(template.rest.text));
  }

  lemma RunOfCut(pin: Pin, template: Template, t: string, w: string)
    requires Simple(pin, template) && Cut(pin, FrameOf(pin, template), t).Some?
    ensures Refilled(pin, FrameOf(pin, template), t, w) == Run(pin, template, w)
  {
    hide ValidPattern, BeforeOf, AfterOf, HeadOf, TailOf, FrameOf, ValidTemplate;
    SimpleMatch(pin, template, []);
    var f := FrameOf(pin, template);
    var c := Cut(pin, f, t).value;
    assert t[..c.from] == f.head && t[c.to..] == f.tail;
  }

  lemma CutOfRun(pin: Pin, template: Template, u: string)
    requires Simple(pin, template) && pin.matches(u)
    ensures
      var t, c := Run(pin, template, u), Cut(pin, FrameOf(pin, template), Run(pin, template, u));
      c.Some? && ValueIn(t, c.value) == u
  {
    hide ValidPattern, BeforeOf, AfterOf, HeadOf, TailOf, FrameOf, ValidTemplate;
    SimpleMatch(pin, template, []);
    var f, t := FrameOf(pin, template), Run(pin, template, u);
    assert t[|f.head|..|t| - |f.tail|] == u && t[|t| - |f.tail|..] == f.tail;
  }

  // ------------------------------------------------------------ no copy: matches stay

  /** After a write the site, filled, stands around every spot. */
  lemma {:induction false} FilledAround(pin: Pin, template: Template, tokens: seq<string>, w: string, k: int)
    requires Simple(pin, template) && IsSpot(pin, template, tokens, k)
    ensures
      var b := Before(pin, template);
      |b| <= k < |tokens| && Filled(pin, template, w) <= SwapTokens(pin, template, tokens, w)[k - |b|..]
    decreases |tokens|
  {
    hide Simple, MatchTokens, Refilled, FrameOf, BeforeOf, AfterOf, Run, Filled, SwapTokens, Cut;
    var b, a, out := Before(pin, template), After(pin, template), SwapTokens(pin, template, tokens, w);
    SimpleMatch(pin, template, tokens);
    var m := MatchTokens(pin, template, tokens);
    var n := if m.Some? then m.value.width else 1;
    if tokens != [] {
      SwapRest(pin, template, tokens, w);
      if m.Some? && k == |b| {
        MatchFilled(pin, template, tokens, w);
        assert out[0..] == out;
      } else {
        FilledAround(pin, template, tokens[n..], w, k - n);
        assert out[n..][k - n - |b|..] == out[k - |b|..];
      }
    }
  }

  lemma MatchFilled(pin: Pin, template: Template, tokens: seq<string>, w: string)
    requires Simple(pin, template) && MatchTokens(pin, template, tokens).Some?
    ensures Filled(pin, template, w) <= SwapTokens(pin, template, tokens, w)
  {
    hide Simple, Refilled, FrameOf, BeforeOf, AfterOf, Run, MatchTokens, Cut;
    var b, a := Before(pin, template), After(pin, template);
    SimpleMatch(pin, template, tokens);
    var h := MatchTokens(pin, template, tokens).value;
    RunOfCut(pin, template, tokens[|b|], w);
    assert tokens[..h.width] == b + [tokens[|b|]] + a;
    assert tokens[..h.width][|b| := Run(pin, template, w)] == Filled(pin, template, w);
  }

  /** Where a written text matches and the text did not, a copy is the reason. */
  lemma NewMatchIsCopy(pin: Pin, template: Template, tokens: seq<string>, w: string)
    requires Simple(pin, template) && BeforeHoldsNone(pin, template) && pin.matches(w)
    requires MatchTokens(pin, template, tokens).None?
    requires MatchTokens(pin, template, SwapTokens(pin, template, tokens, w)).Some?
    ensures HoldsCopy(pin, template, w)
  {
    hide Simple, MatchTokens, FrameOf, BeforeOf, AfterOf, Cut, IsSpot, SwapTokens, Run, Refilled;
    var b, a, out := Before(pin, template), After(pin, template), SwapTokens(pin, template, tokens, w);
    SimpleMatch(pin, template, tokens);
    SimpleMatch(pin, template, out);
    var n := |b| + 1 + |a|;
    SpotAtFront(pin, template, tokens, w);
    assert |Filled(pin, template, w)| == n;
    var k: nat :| k < n && IsSpot(pin, template, tokens, k);
    FilledAround(pin, template, tokens, w, k);
    SpotBehind(pin, template, tokens, k);
    CopyFound(pin, template, out, w, k - |b|);
  }

  /** Some token before the n-th is a spot. */
  predicate SpotBelow(pin: Pin, template: Template, tokens: seq<string>, n: nat) {
    exists k: nat :: k < n && IsSpot(pin, template, tokens, k)
  }

  /** Without a spot where the site would be, the write makes no match there. */
  lemma SpotAtFront(pin: Pin, template: Template, tokens: seq<string>, w: string)
    requires Simple(pin, template) && MatchTokens(pin, template, SwapTokens(pin, template, tokens, w)).Some?
    ensures MatchTokens(pin, template, tokens).Some? || SpotBelow(pin, template, tokens, |Filled(pin, template, w)|)
  {
    hide Simple, MatchTokens, Filled;
    var n, out := |Filled(pin, template, w)|, SwapTokens(pin, template, tokens, w);
    if !SpotBelow(pin, template, tokens, n) {
      forall k: nat | k < n && k < |tokens|
        ensures out[k] == tokens[k]
      {
        SwapElsewhere(pin, template, tokens, w, k);
      }
      MatchKept(pin, template, tokens, out, w);
    }
  }

  /** A match only looks at as many tokens as the filled site has. */
  lemma MatchKept(pin: Pin, template: Template, tokens: seq<string>, out: seq<string>, w: string)
    requires Simple(pin, template) && MatchTokens(pin, template, out).Some? && |out| == |tokens|
    requires forall k :: 0 <= k < |Filled(pin, template, w)| && k < |tokens| ==> out[k] == tokens[k]
    ensures MatchTokens(pin, template, tokens).Some?
  {
    hide Simple, MatchTokens, FrameOf, BeforeOf, AfterOf, Cut, Run;
    var b, a, n := Before(pin, template), After(pin, template), |Filled(pin, template, w)|;
    SimpleMatch(pin, template, tokens);
    SimpleMatch(pin, template, out);
    assert n == |b| + 1 + |a| <= |out|;
    assert tokens[..|b|] == out[..|b|] == b;
    assert tokens[|b| + 1..][..|a|] == out[|b| + 1..][..|a|] == a;
  }

  lemma SwapElsewhere(pin: Pin, template: Template, tokens: seq<string>, w: string, k: nat)
    requires Simple(pin, template) && !IsSpot(pin, template, tokens, k) && k < |tokens|
    ensures SwapTokens(pin, template, tokens, w)[k] == tokens[k]
  {
    hide ValidTemplate, ValidPattern;
    SwapExactly(pin, template, tokens, w, k);
  }

  /** With no match at the front a spot has the literal before it and something before that. */
  lemma SpotBehind(pin: Pin, template: Template, tokens: seq<string>, k: nat)
    requires Simple(pin, template) && MatchTokens(pin, template, tokens).None? && IsSpot(pin, template, tokens, k)
    ensures k > |Before(pin, template)|
  {
    hide Simple, MatchTokens, BeforeOf;
    FilledAround(pin, template, tokens[1..], "", k - 1);
  }

  /** The site at the front of a text and, filled with w, at r, where the first reaches its value. */
  lemma CopyFound(pin: Pin, template: Template, out: seq<string>, w: string, r: nat)
    requires BeforeHoldsNone(pin, template)
    requires
      var b, a := Before(pin, template), After(pin, template);
      && 0 < r <= |a| && |b| + 1 + |a| <= |out|
      && out[..|b|] == b && out[|b| + 1..|b| + 1 + |a|] == a && Cut(pin, FrameOf(pin, template), out[|b|]).Some?
      && Filled(pin, template, w) <= out[r..]
    ensures HoldsCopy(pin, template, w)
  {
    hide Cut, FrameOf, BeforeOf, AfterOf, Run;
    var b, a, s := Before(pin, template), After(pin, template), Filled(pin, template, w);
    var n := |b| + 1 + |a|;
    InsideBefore(b, s, out, r);
    var d := r - |b| - 1;
    assert a[d..] == out[r..n] == out[r..][..n - r] == s[..n - r];
    assert CopyAt(pin, template, w, d);
  }

  lemma InsideBefore(b: seq<string>, s: seq<string>, out: seq<string>, r: nat)
    requires 0 < r < |out| && |b| < |out| && s <= out[r..] && b <= s
    ensures r <= |b| ==> out[|b|] == b[|b| - r]
  {
    if r <= |b| {
      assert out[|b|] == out[r..][|b| - r] == s[|b| - r];
    }
  }

  lemma MatchStays(pin: Pin, template: Template, tokens: seq<string>, w: string)
    requires Simple(pin, template) && BeforeHoldsNone(pin, template) && pin.matches(w) && !HoldsCopy(pin, template, w)
    ensures MatchTokens(pin, template, SwapTokens(pin, template, tokens, w)) == MatchTokens(pin, template, tokens)
  {
    hide Simple, MatchTokens, FrameOf, BeforeOf, AfterOf, Cut, SwapTokens, Run, Refilled, HoldsCopy, BeforeHoldsNone;
    var m, out := MatchTokens(pin, template, tokens), SwapTokens(pin, template, tokens, w);
    if m.None? {
      if MatchTokens(pin, template, out).Some? {
        NewMatchIsCopy(pin, template, tokens, w);
      }
    } else {
      SimpleMatch(pin, template, tokens);
      SimpleMatch(pin, template, out);
      FirstIsSpot(pin, template, tokens);
      FilledAround(pin, template, tokens, w, m.value.at);
      assert out[0..] == out;
      FilledParts(pin, template, out, w);
    }
  }

  lemma FirstIsSpot(pin: Pin, template: Template, tokens: seq<string>)
    requires MatchTokens(pin, template, tokens).Some?
    ensures IsSpot(pin, template, tokens, MatchTokens(pin, template, tokens).value.at)
  {
    hide MatchTokens;
  }

  lemma FilledParts(pin: Pin, template: Template, out: seq<string>, w: string)
    requires Simple(pin, template) && pin.matches(w) && Filled(pin, template, w) <= out
    ensures
      var b, a := Before(pin, template), After(pin, template);
      && b <= out && |b| < |out| && out[|b|] == Run(pin, template, w) && a <= out[|b| + 1..]
      && Cut(pin, FrameOf(pin, template), out[|b|]).Some?
  {
    hide Simple, FrameOf, BeforeOf, AfterOf, Cut, Run;
    CutOfRun(pin, template, w);
    var b, s := Before(pin, template), Filled(pin, template, w);
    assert out[..|b|] == s[..|b|] && out[|b| + 1..][..|s| - |b| - 1] == s[|b| + 1..];
  }

  lemma {:induction false} SimpleParallel(pin: Pin, template: Template, tokens: seq<string>, w: string)
    requires Simple(pin, template) && BeforeHoldsNone(pin, template) && pin.matches(w) && !HoldsCopy(pin, template, w)
    ensures Parallel(pin, template, tokens, SwapTokens(pin, template, tokens, w))
    decreases |tokens|
  {
    hide Simple, MatchTokens, SwapTokens, HoldsCopy, BeforeHoldsNone;
    MatchStays(pin, template, tokens, w);
    if tokens != [] {
      SwapRest(pin, template, tokens, w);
      SimpleMatch(pin, template, tokens);
      var n := match MatchTokens(pin, template, tokens) case None => 1 case Some(h) => h.width;
      SimpleParallel(pin, template, tokens[n..], w);
    }
  }

  /** The values read after writing `w` are as many as before, and all `w`. */
  ghost predicate ReadsBack(pin: Pin, site: Site, s: string, w: string) {
    var t := Swapped(pin, site, s, w);
    |Found(pin, site, t)| == |Found(pin, site, s)| && AllAre(Found(pin, site, t), w)
  }

  lemma {:induction false} ParallelCount(pin: Pin, template: Template, a: seq<string>, b: seq<string>)
    requires ValidTemplate(pin, template) && Parallel(pin, template, a, b)
    ensures |FoundTokens(pin, template, a)| == |FoundTokens(pin, template, b)|
    decreases |a|
  {
    hide MatchTokens, Cut, ValidTemplate, FrameOf;
    if a != [] {
      var n := match MatchTokens(pin, template, a) case None => 1 case Some(h) => h.width;
      ParallelCount(pin, template, a[n..], b[n..]);
      if MatchTokens(pin, template, a).Some? {
        MatchValue(pin, template, a);
        MatchValue(pin, template, b);
      }
    }
  }

  lemma SimpleSite(pin: Pin, site: Site)
    requires Simple(pin, site.template)
    ensures ValidPattern(pin) && ValidSite(pin, site) && ValidTemplate(pin, site.template)
  {
  }

  lemma WithoutCopy(pin: Pin, site: Site, s: string, v: string, w: string)
    requires Simple(pin, site.template) && BeforeHoldsNone(pin, site.template) && pin.matches(w)
    requires !HoldsCopy(pin, site.template, w) && AllAre(Found(pin, site, s), v)
    ensures ReadsBack(pin, site, s, w)
  {
    hide Simple, HoldsCopy, BeforeHoldsNone, Found, Swapped, FoundTokens, SwapTokens, ValidPattern, ValidSite, ValidTemplate, Tokens, Moved, Parallel;
    var a, t := Tokens(pin, s), Swapped(pin, site, s, w);
    SimpleSite(pin, site);
    SwappedTokens(pin, site, s, v, w);
    ReadTokens(pin, site, s, w);
    ReadTokens(pin, site, t, w);
    SimpleParallel(pin, site.template, a, w);
    OwnFound(pin, site.template, a, w);
    ParallelCount(pin, site.template, a, Tokens(pin, t));
  }

  // ------------------------------------------------------------ a copy: a text that goes wrong

  /** The site filled with `v`, broken off where the copy in its last literal begins. */
  function Stump(pin: Pin, template: Template, v: string, d: nat): seq<string> {
    Before(pin, template) + [Run(pin, template, v)]
    + if d <= |After(pin, template)| then After(pin, template)[..d] else []
  }

  lemma {:induction false} SkipTokens(pin: Pin, template: Template, tokens: seq<string>, r: nat, w: string)
    requires r <= |tokens| && forall p: nat :: p < r ==> MatchTokens(pin, template, tokens[p..]).None?
    ensures FoundTokens(pin, template, tokens) == FoundTokens(pin, template, tokens[r..])
    ensures SwapTokens(pin, template, tokens, w) == tokens[..r] + SwapTokens(pin, template, tokens[r..], w)
    decreases r
  {
    hide MatchTokens, Cut, FrameOf;
    assert tokens[0..] == tokens;
    if r > 0 {
      forall p: nat | p < r - 1
        ensures MatchTokens(pin, template, tokens[1..][p..]).None?
      {
        assert tokens[1..][p..] == tokens[p + 1..];
      }
      SkipTokens(pin, template, tokens[1..], r - 1, w);
      assert tokens[1..][r - 1..] == tokens[r..];
      assert tokens[..r] == [tokens[0]] + tokens[1..][..r - 1];
    }
  }

  /** The site filled reads as its value and is rewritten whole. */
  lemma FilledScans(pin: Pin, template: Template, v: string, w: string)
    requires Simple(pin, template) && pin.matches(v) && pin.matches(w)
    ensures FoundTokens(pin, template, Filled(pin, template, v)) == [v]
    ensures SwapTokens(pin, template, Filled(pin, template, v), w) == Filled(pin, template, w)
  {
    hide Simple, BeforeOf, AfterOf, FrameOf, Cut, MatchTokens, Refilled, Run, ValidTemplate;
    var s, b := Filled(pin, template, v), |Before(pin, template)|;
    FilledParts(pin, template, s, v);
    SimpleMatch(pin, template, s);
    SimpleSite(pin, Site("", template, 1));
    MatchValue(pin, template, s);
    CutOfRun(pin, template, v);
    RunOfCut(pin, template, s[b], w);
    SimpleMatch(pin, template, []);
    assert s[|s|..] == [];
    assert s[..|s|] == s;
  }

  /** Before the site itself nothing matches: every match would show `v` in the last literal. */
  lemma NoMatchInStump(pin: Pin, template: Template, v: string, w: string, d: nat, p: nat)
    requires Simple(pin, template) && Run(pin, template, v) !in After(pin, template) && CopyAt(pin, template, w, d)
    requires p < |Stump(pin, template, v, d)|
    ensures MatchTokens(pin, template, (Stump(pin, template, v, d) + Filled(pin, template, v))[p..]).None?
  {
    hide Simple, BeforeOf, AfterOf, FrameOf, Cut, MatchTokens, Run;
    var b, a, r := |Before(pin, template)|, After(pin, template), |Stump(pin, template, v, d)|;
    var tokens := Stump(pin, template, v, d) + Filled(pin, template, v);
    SimpleMatch(pin, template, tokens[p..]);
    assert tokens[r + b] == Run(pin, template, v);
    assert tokens[p..][b + 1..][r - p - 1] == tokens[r + b];
    PrefixAt(a, tokens[p..][b + 1..], r - p - 1);
  }

  lemma PrefixAt(a: seq<string>, s: seq<string>, k: nat)
    requires k < |a| && k < |s|
    ensures a <= s ==> a[k] == s[k] && s[k] in a
  {
  }

  lemma BrokenScans(pin: Pin, template: Template, v: string, w: string, d: nat)
    requires Simple(pin, template) && pin.matches(v) && pin.matches(w)
    requires Run(pin, template, v) !in After(pin, template) && CopyAt(pin, template, w, d)
    ensures
      var stump := Stump(pin, template, v, d);
      var tokens, out := stump + Filled(pin, template, v), stump + Filled(pin, template, w);
      && FoundTokens(pin, template, tokens) == [v]
      && SwapTokens(pin, template, tokens, w) == out
      && FoundTokens(pin, template, out) != [] && FoundTokens(pin, template, out)[0] == v
  {
    hide Simple, FoundTokens, SwapTokens, Stump, Filled, MatchTokens, CopyAt, Run, After;
    var stump := Stump(pin, template, v, d);
    var tokens := stump + Filled(pin, template, v);
    forall p: nat | p < |stump|
      ensures MatchTokens(pin, template, tokens[p..]).None?
    {
      NoMatchInStump(pin, template, v, w, d, p);
    }
    SkipTokens(pin, template, tokens, |stump|, w);
    assert tokens[|stump|..] == Filled(pin, template, v) && tokens[..|stump|] == stump;
    FilledScans(pin, template, v, w);
    StumpMatches(pin, template, v, w, d);
  }

  /** With the copy completed the stump is the site, filled with `v`. */
  lemma StumpMatches(pin: Pin, template: Template, v: string, w: string, d: nat)
    requires Simple(pin, template) && pin.matches(v) && CopyAt(pin, template, w, d)
    ensures
      var found := FoundTokens(pin, template, Stump(pin, template, v, d) + Filled(pin, template, w));
      found != [] && found[0] == v
  {
    hide Simple, BeforeOf, AfterOf, FrameOf, Cut, MatchTokens, Run, FoundTokens, ValidTemplate;
    var b, a, s := Before(pin, template), After(pin, template), Filled(pin, template, w);
    var out := Stump(pin, template, v, d) + s;
    assert a == a[..d] + a[d..] && s[..|a| - d] == a[d..];
    assert out[..|b|] == b && out[|b| + 1..] == a[..d] + s;
    assert out[|b|] == Run(pin, template, v);
    CutOfRun(pin, template, v);
    SimpleMatch(pin, template, out);
    SimpleSite(pin, Site("", template, 1));
    MatchValue(pin, template, out);
  }

  lemma {:induction false} CanonicalJoin(pin: Pin, x: seq<string>, y: seq<string>)
    requires Canonical(pin, x) && Canonical(pin, y)
    requires x != [] && y != [] ==> IsSep(pin, x[|x| - 1]) || IsSep(pin, y[0])
    ensures Canonical(pin, x + y)
    decreases |x|
  {
    if x == [] {
      assert x + y == y;
    } else {
      CanonicalJoin(pin, x[1..], y);
      assert (x + y)[1..] == x[1..] + y;
    }
  }

  lemma SimpleShape(pin: Pin, template: Template)
    requires Simple(pin, template)
    ensures template == Piece(template.text, Value, End(template.rest.text)) && Before(pin, template) != []
    ensures template.rest.text != "" && !pin.inClass(template.rest.text[|template.rest.text| - 1])
  {
  }

  /** A match has the run of its value between separators. */
  lemma FilledCanonical(pin: Pin, template: Template, v: string)
    requires Simple(pin, template) && pin.matches(v)
    ensures Canonical(pin, Before(pin, template) + [Run(pin, template, v)]) && Canonical(pin, Filled(pin, template, v))
    ensures Canonical(pin, After(pin, template)) && Before(pin, template) != []
    ensures After(pin, template) != [] && IsSep(pin, After(pin, template)[0])
  {
    hide ValidTemplate, BeforeOf, AfterOf, HeadOf, TailOf, Canonical, Flatten;
    SimpleShape(pin, template);
    BeforeParts(pin, template.text);
    AfterParts(pin, template.rest.text);
    RunIsRun(pin, template, v);
    OneToken(pin, Run(pin, template, v));
    CanonicalJoin(pin, Before(pin, template), [Run(pin, template, v)]);
    CanonicalJoin(pin, Before(pin, template) + [Run(pin, template, v)], After(pin, template));
  }

  lemma OneToken(pin: Pin, t: string)
    requires IsRun(pin, t)
    ensures Canonical(pin, [t])
  {
  }

  lemma RunIsRun(pin: Pin, template: Template, v: string)
    requires Simple(pin, template) && pin.matches(v)
    ensures IsRun(pin, Run(pin, template, v))
  {
    hide HeadOf, TailOf, BeforeOf, AfterOf, ValidTemplate, Flatten, Canonical, Tokens;
    var h, t := HeadOf(pin, template.text), TailOf(pin, template.rest.text);
    BeforeParts(pin, template.text);
    TailIsRun(pin, template.rest.text);
    assert FrameOf(pin, template).head == h && FrameOf(pin, template).tail == t;
  }

  lemma TailIsRun(pin: Pin, t: string)
    ensures AllIn(pin, TailOf(pin, t))
  {
    hide Tokens;
  }

  /** The text that goes wrong is made of tokens. */
  lemma StumpCanonical(pin: Pin, template: Template, v: string, u: string, w: string, d: nat)
    requires Simple(pin, template) && pin.matches(v) && pin.matches(u) && CopyAt(pin, template, w, d)
    ensures Canonical(pin, Stump(pin, template, v, d) + Filled(pin, template, u))
  {
    hide Simple, BeforeOf, AfterOf, Run, Canonical;
    var b, a, s := Before(pin, template), After(pin, template), Filled(pin, template, u);
    FilledCanonical(pin, template, v);
    FilledCanonical(pin, template, u);
    assert a[d] == a[d..][0] == Filled(pin, template, w)[0] == b[0] == s[0];
    CanonicalFront(pin, a, d);
    TokenKinds(pin, a, d);
    if d > 0 {
      TokenKinds(pin, a, d - 1);
      assert a[..d][0] == a[0] && a[..d][d - 1] == a[d - 1];
    }
    var front := b + [Run(pin, template, v)];
    CanonicalJoin(pin, front, a[..d]);
    var stump := front + a[..d];
    assert d > 0 ==> stump[|stump| - 1] == a[d - 1];
    CanonicalJoin(pin, stump, s);
  }

  /** A text whose sites all hold `v`, and in which the first one reads `v` after `w` is written. */
  function Broken(pin: Pin, template: Template, v: string, d: nat): string {
    Flatten(Stump(pin, template, v, d) + Filled(pin, template, v))
  }

  lemma CopyBreaks(pin: Pin, site: Site, v: string, w: string, d: nat)
    requires Simple(pin, site.template) && pin.matches(v) && pin.matches(w)
    requires CopyAt(pin, site.template, w, d) && Run(pin, site.template, v) !in After(pin, site.template)
    ensures
      var s := Broken(pin, site.template, v, d);
      && Found(pin, site, s) == [v] && v != w
      && Found(pin, site, Swapped(pin, site, s, w)) != [] && Found(pin, site, Swapped(pin, site, s, w))[0] == v
  {
    hide Simple, FoundTokens, SwapTokens, Stump, Filled, CopyAt, Run, After, Found, Swapped, Flatten, Canonical, ValidPattern, ValidSite;
    var template := site.template;
    var stump := Stump(pin, template, v, d);
    var tokens, out := stump + Filled(pin, template, v), stump + Filled(pin, template, w);
    BrokenScans(pin, template, v, w, d);
    StumpCanonical(pin, template, v, v, w, d);
    StumpCanonical(pin, template, v, w, w, d);
    SimpleSite(pin, site);
    ScansAlike(pin, site, tokens, w);
    ScansAlike(pin, site, out, w);
    CopyHoldsRun(pin, template, w, d);
  }

  lemma CopyHoldsRun(pin: Pin, template: Template, w: string, d: nat)
    requires CopyAt(pin, template, w, d)
    ensures Run(pin, template, w) in After(pin, template)
  {
    hide BeforeOf, AfterOf, Run;
    var b, a := |Before(pin, template)|, After(pin, template);
    assert a[d + b] == a[d..][b] == Filled(pin, template, w)[b];
  }

  // ------------------------------------------------------------ exactly when

  /** Whatever the text, when its sites all hold one value they all hold `w` after it is written. */
  ghost predicate AlwaysReadsBack(pin: Pin, site: Site, w: string) {
    forall s, v :: AllAre(Found(pin, site, s), v) ==> ReadsBack(pin, site, s, w)
  }

  /** A written value always reads back if and only if the literal after the value holds no copy
      of the site with it. */
  lemma AlwaysReadsBackIff(pin: Pin, site: Site, w: string)
    requires Simple(pin, site.template) && BeforeHoldsNone(pin, site.template) && pin.matches(w)
    requires exists v :: pin.matches(v) && Run(pin, site.template, v) !in After(pin, site.template)
    ensures AlwaysReadsBack(pin, site, w) <==> !HoldsCopy(pin, site.template, w)
  {
    hide Simple, Found, Swapped, CopyAt, Run, After, BeforeHoldsNone;
    if HoldsCopy(pin, site.template, w) {
      var d: nat :| CopyAt(pin, site.template, w, d);
      var v :| pin.matches(v) && Run(pin, site.template, v) !in After(pin, site.template);
      CopyBreaks(pin, site, v, w, d);
      var s := Broken(pin, site.template, v, d);
      var after := Found(pin, site, Swapped(pin, site, s, w));
      assert after[0] in after;
      assert AllAre(Found(pin, site, s), v) && !ReadsBack(pin, site, s, w);
    } else {
      forall s, v | AllAre(Found(pin, site, s), v)
        ensures ReadsBack(pin, site, s, w)
      {
        WithoutCopy(pin, site, s, v, w);
      }
    }
  }

  /** For a pin with one such site this is the round trip of the files. */
  lemma OneSiteReadsBack(pin: Pin, files: Files, v: string, w: string)
    requires |pin.sites| == 1 && AlwaysReadsBack(pin, pin.sites[0], w)
    requires ReadSites(files, pin, pin.sites) == Ok({v})
    ensures ReadSites(WriteSites(files, pin, pin.sites, w), pin, pin.sites) == Ok({w})
  {
    hide Found, Swapped;
    var site := pin.sites[0];
    SitesExist(files, pin, pin.sites, 0);
    var s := files[site.path];
    var t := Swapped(pin, site, s, w);
    assert AllAre(Found(pin, site, s), v) && ReadsBack(pin, site, s, w);
    assert WriteSites(files, pin, pin.sites, w) == files[site.path := t];
    SomeSiteCounts(files, pin, pin.sites, v);
    assert Found(pin, site, t)[0] in Found(pin, site, t);
    assert Elements(Found(pin, site, t)) + {} == {w};
  }

  // ------------------------------------------------------------ one such site

  /** A separator, the value, another separator, and the same again around a fixed value. */
  function Nested(x: char, y: char, w: string): Template {
    Piece([x], Value, End([y] + ([x] + (w + [y]))))
  }

  lemma TokensStep(pin: Pin, t: string, s: string)
    requires IsSep(pin, t) || (IsRun(pin, t) && s != "" && !pin.inClass(s[0]))
    ensures Tokens(pin, t + s) == [t] + Tokens(pin, s)
  {
    hide Flatten;
    TokensCanonical(pin, s);
    var l := [t] + Tokens(pin, s);
    assert l[1..] == Tokens(pin, s);
    FlattenFirst(l);
    TokensFlatten(pin, s);
    TokensOfFlatten(pin, l);
  }

  lemma NestedParts(pin: Pin, x: char, y: char, w: string)
    requires !pin.inClass(x) && !pin.inClass(y) && IsRun(pin, w)
    ensures Before(pin, Nested(x, y, w)) == [[x]] && After(pin, Nested(x, y, w)) == [[y], [x], w, [y]]
    ensures FrameOf(pin, Nested(x, y, w)) == Frame("", "", false) && Opening(pin, Nested(x, y, w)) == ""
  {
    hide Tokens, Flatten;
    OneSeparator(pin, x);
    OneSeparator(pin, y);
    TokensStep(pin, w, [y]);
    TokensStep(pin, [x], w + [y]);
    TokensStep(pin, [y], [x] + (w + [y]));
  }

  lemma OneSeparator(pin: Pin, c: char)
    requires !pin.inClass(c)
    ensures Tokens(pin, [c]) == [[c]]
  {
    TokensStep(pin, [c], "");
    assert [c] + "" == [c];
  }

  /** Writing w over another value v leaves a text that still reads as v. */
  lemma NestedBreaks(pin: Pin, x: char, y: char, v: string, w: string, path: string)
    requires ValidPattern(pin) && !pin.inClass(x) && !pin.inClass(y) && pin.matches(v) && pin.matches(w) && v != w
    ensures
      var site, s := Site(path, Nested(x, y, w), 1), [x] + v + [y] + [x] + v + [y] + [x] + w + [y];
      && HoldsCopy(pin, Nested(x, y, w), w)
      && Found(pin, site, s) == [v]
      && !ReadsBack(pin, site, s, w)
  {
    hide Found, Swapped, Before, After, FrameOf, BeforeOf, Flatten;
    var site, template := Site(path, Nested(x, y, w), 1), Nested(x, y, w);
    NestedParts(pin, x, y, w);
    assert [[y], [x], w, [y]][1..] == [[x], w, [y]];
    assert "" + w + "" == w && "" + v + "" == v;
    assert Filled(pin, template, w) == [[x], w, [y]] + [[x], w, [y]];
    assert CopyAt(pin, template, w, 1);
    assert Stump(pin, template, v, 1) + Filled(pin, template, v) == [[x], v, [y], [x], v, [y], [x], w, [y]];
    FlattenNine([x], v, [y], [x], v, [y], [x], w, [y]);
    SimpleNested(pin, x, y, w);
    CopyBreaks(pin, site, v, w, 1);
    var after := Found(pin, site, Swapped(pin, site, Broken(pin, template, v, 1), w));
    assert after[0] in after;
  }

  ghost const Numbers := Pin(c => '0' <= c <= '9', s => s != "" && forall k :: 0 <= k < |s| ==> '0' <= s[k] <= '9', None, [
    Site("numbers", Nested('x', ';', "1"), 1)])

  /** One input: 1 written over 5 in `x5;x5;x1;` reads back as 5. */
  lemma NumbersBreak()
    ensures Found(Numbers, Numbers.sites[0], "x5;x5;x1;") == ["5"]
    ensures !ReadsBack(Numbers, Numbers.sites[0], "x5;x5;x1;", "1")
  {
    hide Found, ReadsBack, HoldsCopy, Nested;
    NestedBreaks(Numbers, 'x', ';', "5", "1", "numbers");
    assert "x5;x5;x1;" == ['x'] + "5" + [';'] + ['x'] + "5" + [';'] + ['x'] + "1" + [';'];
  }

  lemma SimpleNested(pin: Pin, x: char, y: char, w: string)
    requires ValidPattern(pin) && !pin.inClass(x) && !pin.inClass(y) && pin.matches(w)
    ensures Simple(pin, Nested(x, y, w))
  {
    hide BeforeOf, AfterOf, FrameOf, Tokens;
    NestedParts(pin, x, y, w);
    assert Before(pin, Nested(x, y, w)) == BeforeOf(pin, [x]);
  }

  lemma FlattenNine(a: string, b: string, c: string, d: string, e: string, f: string, g: string, h: string, i: string)
    ensures Flatten([a, b, c, d, e, f, g, h, i]) == a + b + c + d + e + f + g + h + i
  {
    FlattenThree(a, b, c);
    FlattenThree(d, e, f);
    FlattenThree(g, h, i);
    hide Flatten;
    FlattenConcat([a, b, c], [d, e, f]);
    FlattenConcat([a, b, c] + [d, e, f], [g, h, i]);
    assert [a, b, c, d, e, f, g, h, i] == [a, b, c] + [d, e, f] + [g, h, i];
  }

  lemma FlattenThree(a: string, b: string, c: string)
    ensures Flatten([a, b, c]) == a + b + c
  {
    assert [a, b, c][1..] == [b, c] && [b, c][1..] == [c];
    FlattenOne(c);
    assert Flatten([b, c]) == b + c;
  }
}
