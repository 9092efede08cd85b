/**
 What replacing values does to matches: the tokens of a text in which a site has written
 match, for the other sites and for itself, where they matched before.
 */
module PinWrites {
  import opened Options
  import opened Pins
  import opened PinTokens
  import opened PinMatching
  import opened PinScan

  // ------------------------------------------------------------ literals that hold no value

  ghost predicate NoneShows(pin: Pin, f: Frame, u: string, l: seq<string>) {
    forall k :: 0 <= k < |l| ==> !Shows(pin, f, u, l[k])
  }

  /** The whole tokens of a template's first literal. */
  function FirstTokens(pin: Pin, template: Template): seq<string> {
    if template.Piece? && template.gap.Value? then BeforeOf(pin, template.text) else Tokens(pin, template.text)
  }

  /** No run of a literal but the first shows `u` to the frame. */
  ghost predicate RestAvoids(pin: Pin, template: Template, f: Frame, u: string) {
    match template
    case End(_) => true
    case Piece(_, gap, rest) =>
      if gap.Value? then NoneShows(pin, f, u, AfterOf(pin, rest.text))
      else NoneShows(pin, f, u, FirstTokens(pin, rest)) && RestAvoids(pin, rest, f, u)
  }

  /** No run of the first literal shows `u` to the frame, and no run that does ends in the run
      the template begins with. */
  ghost predicate FirstAvoids(pin: Pin, template: Template, f: Frame, u: string) {
    && NoneShows(pin, f, u, FirstTokens(pin, template))
    && (Opening(pin, template) != "" ==> forall t :: Shows(pin, f, u, t) ==> !EndsWith(t, Opening(pin, template)))
  }

  /** `u` is clear of the literals of the sites that share a file: of all of them for the other
      sites, of all but the first for the site itself. */
  ghost predicate Clear(pin: Pin, u: string) {
    forall i, j :: 0 <= i < |pin.sites| && 0 <= j < |pin.sites| && pin.sites[i].path == pin.sites[j].path ==>
      && RestAvoids(pin, pin.sites[j].template, FrameOf(pin, pin.sites[i].template), u)
      && (i != j ==> FirstAvoids(pin, pin.sites[j].template, FrameOf(pin, pin.sites[i].template), u))
  }

  // ------------------------------------------------------------ replacing values

  /** `after` is `before` with `w` for `v` in some of the tokens that show `v` to the frame. */
  ghost predicate Moved(pin: Pin, f: Frame, before: seq<string>, after: seq<string>, v: string, w: string) {
    && |after| == |before|
    && forall k :: 0 <= k < |before| ==>
         after[k] == before[k] || (Shows(pin, f, v, before[k]) && after[k] == Refilled(pin, f, before[k], w))
  }

  lemma MovedRest(pin: Pin, f: Frame, a: seq<string>, b: seq<string>, v: string, w: string, n: nat)
    requires Moved(pin, f, a, b, v, w) && n <= |a|
    ensures Moved(pin, f, a[n..], b[n..], v, w)
  {
    hide Shows, Refilled;
  }

  /** A refilled token shows the new value in the same place. */
  lemma RefilledShows(pin: Pin, f: Frame, t: string, w: string)
    requires ValidPattern(pin) && Cut(pin, f, t).Some? && pin.matches(w)
    ensures
      var c, r := Cut(pin, f, t).value, Refilled(pin, f, t, w);
      && Cut(pin, f, r) == Some(Span(c.from, c.from + |w|))
      && ValueIn(r, Span(c.from, c.from + |w|)) == w
      && Shows(pin, f, w, r)
      && (forall x :: Refilled(pin, f, r, x) == Refilled(pin, f, t, x))
  {
    var c, r := Cut(pin, f, t).value, Refilled(pin, f, t, w);
    assert r == t[..c.from] + w + t[c.to..];
    assert r[c.from..c.from + |w|] == w;
    assert r[..c.from] == t[..c.from];
    assert r[c.from + |w|..] == t[c.to..];
    if !f.open {
      assert r[|r| - |f.tail|..] == t[|t| - |f.tail|..];
    }
  }

  lemma RefilledSame(pin: Pin, f: Frame, t: string, w: string)
    requires Shows(pin, f, w, t)
    ensures Refilled(pin, f, t, w) == t
  {
  }

  /** A closed run is its frame around its value. */
  lemma ClosedRun(pin: Pin, f: Frame, t: string)
    requires Cut(pin, f, t).Some? && !f.open
    ensures t == f.head + ValueIn(t, Cut(pin, f, t).value) + f.tail
  {
  }

  /** Another frame of the pin sees the same value in a run, or none, before and after. */
  lemma CutMoved(pin: Pin, f: Frame, g: Frame, t: string, w: string)
    requires ValidPattern(pin) && Compatible(pin, f, g) && Cut(pin, f, t).Some? && pin.matches(w)
    ensures Cut(pin, g, t).Some? ==> Cut(pin, g, t) == Cut(pin, f, t)
    ensures Cut(pin, g, Refilled(pin, f, t, w)) == if Cut(pin, g, t).Some? then Cut(pin, f, Refilled(pin, f, t, w)) else None
  {
    hide Cut, Refilled;
    var r := Refilled(pin, f, t, w);
    RefilledShows(pin, f, t, w);
    if f == g {
    } else if f.head == g.head && f.tail == "" == g.tail {
      OneOpen(pin, f, g, t);
      OneOpen(pin, f, g, r);
      SameLength(pin, f, t, w);
    } else {
      NeverBoth(pin, f, g, t);
      NeverBoth(pin, f, g, r);
    }
  }

  lemma NeverBoth(pin: Pin, f: Frame, g: Frame, t: string)
    requires !f.open && !g.open && Cut(pin, f, t).Some?
    requires forall u, v :: pin.matches(u) && pin.matches(v) ==> f.head + u + f.tail != g.head + v + g.tail
    ensures Cut(pin, g, t).None?
  {
    hide Cut;
    ClosedRun(pin, f, t);
    if Cut(pin, g, t).Some? {
      ClosedRun(pin, g, t);
    }
  }

  /** With the same part before the value and nothing or anything after it. */
  lemma OneOpen(pin: Pin, f: Frame, g: Frame, t: string)
    requires ValidPattern(pin) && f != g && f.head == g.head && f.tail == "" == g.tail && Cut(pin, f, t).Some?
    ensures Cut(pin, g, t).Some? <==>
      pin.length.Some? && |t| >= |f.head| + pin.length.value && (!g.open ==> |t| == |f.head| + pin.length.value)
    ensures Cut(pin, g, t).Some? ==> Cut(pin, g, t) == Cut(pin, f, t)
  {
    assert t[|t|..] == "";
    assert t[|f.head|..|t| - 0] == t[|f.head|..|t|];
  }

  lemma SameLength(pin: Pin, f: Frame, t: string, w: string)
    requires ValidPattern(pin) && Cut(pin, f, t).Some? && pin.matches(w)
    ensures pin.length.Some? ==> |Refilled(pin, f, t, w)| == |t|
  {
  }

  /** A token that shows a value is a run, and stays one. */
  lemma ShowsInRun(pin: Pin, f: Frame, t: string, w: string)
    requires ValidPattern(pin) && (IsRun(pin, t) || IsSep(pin, t)) && Cut(pin, f, t).Some? && pin.matches(w)
    ensures IsRun(pin, t) && IsRun(pin, Refilled(pin, f, t, w))
  {
    var c := Cut(pin, f, t).value;
    var u := t[c.from..c.to];
    assert pin.inClass(u[0]) && u[0] == t[c.from];
    var r := Refilled(pin, f, t, w);
    assert r == t[..c.from] + w + t[c.to..];
  }

  lemma {:induction false} MovedCanonical(pin: Pin, f: Frame, a: seq<string>, b: seq<string>, v: string, w: string)
    requires ValidPattern(pin) && Canonical(pin, a) && Moved(pin, f, a, b, v, w) && pin.matches(w)
    ensures Canonical(pin, b)
    decreases |a|
  {
    hide Cut, Refilled, ValidPattern;
    if a != [] {
      MovedRest(pin, f, a, b, v, w, 1);
      MovedCanonical(pin, f, a[1..], b[1..], v, w);
      SameKind(pin, f, a, b, v, w, 0);
      if |a| > 1 {
        SameKind(pin, f, a, b, v, w, 1);
      }
    }
  }

  /** A token and what becomes of it are both runs or both separators. */
  lemma SameKind(pin: Pin, f: Frame, a: seq<string>, b: seq<string>, v: string, w: string, k: nat)
    requires ValidPattern(pin) && Canonical(pin, a) && Moved(pin, f, a, b, v, w) && pin.matches(w) && k < |a|
    ensures IsRun(pin, a[k]) == IsRun(pin, b[k]) && IsSep(pin, a[k]) == IsSep(pin, b[k])
    ensures b[k] == a[k] || (IsRun(pin, a[k]) && IsRun(pin, b[k]) && Shows(pin, f, v, a[k]) && Shows(pin, f, w, b[k]))
  {
    hide Cut, Refilled, Canonical;
    TokenKinds(pin, a, k);
    if b[k] != a[k] {
      ShowsInRun(pin, f, a[k], w);
      RefilledShows(pin, f, a[k], w);
      RunIsNoSep(pin, a[k]);
      RunIsNoSep(pin, b[k]);
    }
  }

  lemma RunIsNoSep(pin: Pin, t: string)
    requires IsRun(pin, t)
    ensures !IsSep(pin, t)
  {
  }

  lemma PrefixMoved(pin: Pin, f: Frame, l: seq<string>, a: seq<string>, b: seq<string>, v: string, w: string)
    requires ValidPattern(pin) && Canonical(pin, a) && Moved(pin, f, a, b, v, w) && pin.matches(w)
    requires NoneShows(pin, f, v, l) && NoneShows(pin, f, w, l)
    ensures l <= a <==> l <= b
  {
    hide Shows, Refilled, Canonical, ValidPattern;
    forall k | 0 <= k < |l| && k < |a|
      ensures l[k] == a[k] <==> l[k] == b[k]
    {
      SameKind(pin, f, a, b, v, w, k);
    }
    if |l| <= |a| {
      assert l <= a <==> forall k :: 0 <= k < |l| ==> l[k] == a[k];
      assert l <= b <==> forall k :: 0 <= k < |l| ==> l[k] == b[k];
    }
  }

  lemma {:induction false} GapMoved(pin: Pin, f: Frame, gap: Gap, a: seq<string>, b: seq<string>, v: string, w: string)
    requires ValidPattern(pin) && Canonical(pin, a) && Moved(pin, f, a, b, v, w) && pin.matches(w) && !gap.Value?
    ensures GapTokens(gap, a) == GapTokens(gap, b)
    decreases |a|
  {
    hide Shows, Refilled, AllGap, IsRun, Canonical;
    GapTokensUnfolds(gap, a);
    GapTokensUnfolds(gap, b);
    if a != [] {
      SameKind(pin, f, a, b, v, w, 0);
      if b[0] != a[0] {
        RunInGap(pin, gap, a[0]);
        RunInGap(pin, gap, b[0]);
      }
      FrontToken(pin, a);
      MovedRest(pin, f, a, b, v, w, 1);
      GapMoved(pin, f, gap, a[1..], b[1..], v, w);
    }
  }

  lemma RunInGap(pin: Pin, gap: Gap, t: string)
    requires ValidPattern(pin) && IsRun(pin, t) && !gap.Value?
    ensures AllGap(gap, t) <==> gap.Any?
  {
    assert pin.inClass(t[0]);
  }

  /** A template whose literals, from the second on, hold neither value fits where it fitted,
      if its first literal is where it was. */
  lemma {:induction false} FitMoved(pin: Pin, template: Template, f: Frame, a: seq<string>, b: seq<string>, v: string, w: string)
    requires ValidPattern(pin) && ValidTemplate(pin, template) && Compatible(pin, f, FrameOf(pin, template))
    requires Canonical(pin, a) && Moved(pin, f, a, b, v, w) && pin.matches(w)
    requires RestAvoids(pin, template, f, v) && RestAvoids(pin, template, f, w)
    requires FirstTokens(pin, template) <= a <==> FirstTokens(pin, template) <= b
    ensures FitTokens(pin, template, a) == FitTokens(pin, template, b)
    decreases template
  {
    hide Shows, Refilled, Canonical, ValidPattern, NoneShows, Moved, Tokens, GapTokens, Compatible, BeforeOf, AfterOf, HeadOf, TailOf;
    match template
    case Piece(t, gap, rest) =>
      if gap.Value? {
        ValueMoved(pin, t, rest.text, f, a, b, v, w);
      } else {
        var l := Tokens(pin, t);
        GapTokensUnfold(pin, t, gap, rest, a);
        GapTokensUnfold(pin, t, gap, rest, b);
        LeadMoved(pin, t, gap, f, a, b, v, w);
        if LeadTokens(pin, t, gap, a).Some? {
          var k := LeadTokens(pin, t, gap, a).value;
          CanonicalRest(pin, a, k);
          MovedRest(pin, f, a, b, v, w, k);
          PrefixMoved(pin, f, FirstTokens(pin, rest), a[k..], b[k..], v, w);
          FitMoved(pin, rest, f, a[k..], b[k..], v, w);
        }
      }
  }

  lemma LeadMoved(pin: Pin, t: string, gap: Gap, f: Frame, a: seq<string>, b: seq<string>, v: string, w: string)
    requires ValidPattern(pin) && Canonical(pin, a) && Moved(pin, f, a, b, v, w) && pin.matches(w) && !gap.Value?
    requires Tokens(pin, t) <= a <==> Tokens(pin, t) <= b
    ensures LeadTokens(pin, t, gap, a) == LeadTokens(pin, t, gap, b)
    ensures LeadTokens(pin, t, gap, a).Some? ==> LeadTokens(pin, t, gap, a).value <= |a| == |b|
  {
    hide Shows, Refilled, Canonical, ValidPattern, Tokens, GapTokens;
    var l := Tokens(pin, t);
    if l <= a {
      CanonicalRest(pin, a, |l|);
      MovedRest(pin, f, a, b, v, w, |l|);
      GapMoved(pin, f, gap, a[|l|..], b[|l|..], v, w);
    }
  }

  lemma ValueMoved(pin: Pin, t: string, a': string, f: Frame, a: seq<string>, b: seq<string>, v: string, w: string)
    requires ValidPattern(pin) && Compatible(pin, f, FrameOf(pin, Piece(t, Value, End(a'))))
    requires Canonical(pin, a) && Moved(pin, f, a, b, v, w) && pin.matches(w)
    requires NoneShows(pin, f, v, AfterOf(pin, a')) && NoneShows(pin, f, w, AfterOf(pin, a'))
    requires BeforeOf(pin, t) <= a <==> BeforeOf(pin, t) <= b
    ensures FitTokens(pin, Piece(t, Value, End(a')), a) == FitTokens(pin, Piece(t, Value, End(a')), b)
  {
    hide Refilled, Canonical, ValidPattern, NoneShows, Compatible, BeforeOf, AfterOf, HeadOf, TailOf, Cut, FitTokens, FrameOf;
    var n, g := |BeforeOf(pin, t)|, FrameOf(pin, Piece(t, Value, End(a')));
    ValueTokensUnfold(pin, t, a', a);
    ValueTokensUnfold(pin, t, a', b);
    if n < |a| {
      MovedRest(pin, f, a, b, v, w, n + 1);
      CanonicalRest(pin, a, n + 1);
      PrefixMoved(pin, f, AfterOf(pin, a'), a[n + 1..], b[n + 1..], v, w);
      if b[n] != a[n] {
        CutMoved(pin, f, g, a[n], w);
        RefilledShows(pin, f, a[n], w);
      }
    }
  }

  // ------------------------------------------------------------ matches stay where they are

  lemma TrimmedMoved(pin: Pin, template: Template, f: Frame, a: seq<string>, b: seq<string>, v: string, w: string)
    requires a != [] && Moved(pin, f, a, b, v, w)
    requires b[0] == a[0] || (Trimmed(pin, template, a) == a && Trimmed(pin, template, b) == b)
    ensures Moved(pin, f, Trimmed(pin, template, a), Trimmed(pin, template, b), v, w)
  {
    hide Shows, Refilled, Opening;
    var us, ws := Trimmed(pin, template, a), Trimmed(pin, template, b);
    assert us[1..] == a[1..] && ws[1..] == b[1..];
    assert forall k :: 1 <= k < |us| ==> us[k] == us[1..][k - 1] == a[1..][k - 1] == a[k];
    assert forall k :: 1 <= k < |ws| ==> ws[k] == ws[1..][k - 1] == b[1..][k - 1] == b[k];
  }

  /** A site of another frame matches where it matched. */
  lemma MatchMoved(pin: Pin, template: Template, f: Frame, a: seq<string>, b: seq<string>, v: string, w: string)
    requires ValidPattern(pin) && ValidTemplate(pin, template) && Compatible(pin, f, FrameOf(pin, template))
    requires Canonical(pin, a) && Moved(pin, f, a, b, v, w) && pin.matches(w)
    requires RestAvoids(pin, template, f, v) && RestAvoids(pin, template, f, w)
    requires FirstAvoids(pin, template, f, v) && FirstAvoids(pin, template, f, w)
    ensures MatchTokens(pin, template, a) == MatchTokens(pin, template, b)
  {
    hide Shows, Refilled, Canonical, ValidPattern, Tokens, Compatible, FitTokens, RestAvoids, FirstTokens, FrameOf, ValidTemplate;
    if a != [] {
      SameKind(pin, f, a, b, v, w, 0);
      TrimmedMoved(pin, template, f, a, b, v, w);
      TrimmedParts(pin, template, a);
      var us, ws := Trimmed(pin, template, a), Trimmed(pin, template, b);
      PrefixMoved(pin, f, FirstTokens(pin, template), us, ws, v, w);
      FitMoved(pin, template, f, us, ws, v, w);
    }
  }

  /** The values of matches come after the first literal. */
  lemma ValueBehindFirst(pin: Pin, template: Template, tokens: seq<string>)
    requires ValidTemplate(pin, template) && MatchTokens(pin, template, tokens).Some?
    ensures |FirstTokens(pin, template)| > 0
    ensures |FirstTokens(pin, template)| <= MatchTokens(pin, template, tokens).value.at
  {
    hide Tokens, Cut, GapTokens;
    MatchUnfold(pin, template, tokens);
    FirstToken(pin, template, Trimmed(pin, template, tokens));
  }

  /** Substituting leaves the first literal's tokens where a match could begin. */
  lemma {:induction false} SwapEarly(pin: Pin, template: Template, tokens: seq<string>, w: string, k: nat)
    requires ValidTemplate(pin, template) && k < |tokens| && k < |FirstTokens(pin, template)|
    ensures SwapTokens(pin, template, tokens, w)[k] == tokens[k]
    decreases |tokens|
  {
    hide MatchTokens, FirstTokens, ValidTemplate, Cut, FrameOf;
    match MatchTokens(pin, template, tokens)
    case None =>
      if k > 0 {
        SwapEarly(pin, template, tokens[1..], w, k - 1);
      }
    case Some(h) =>
      ValueBehindFirst(pin, template, tokens);
  }

  /** The site that wrote matches where it matched. */
  lemma OwnMatch(pin: Pin, template: Template, a: seq<string>, v: string, w: string)
    requires ValidPattern(pin) && ValidTemplate(pin, template) && Canonical(pin, a) && pin.matches(w)
    requires Moved(pin, FrameOf(pin, template), a, SwapTokens(pin, template, a, w), v, w)
    requires RestAvoids(pin, template, FrameOf(pin, template), v) && RestAvoids(pin, template, FrameOf(pin, template), w)
    ensures MatchTokens(pin, template, a) == MatchTokens(pin, template, SwapTokens(pin, template, a, w))
  {
    hide Shows, Refilled, Canonical, ValidPattern, Tokens, FitTokens, RestAvoids, FirstTokens, FrameOf, ValidTemplate, SwapTokens;
    var b, f, n := SwapTokens(pin, template, a, w), FrameOf(pin, template), |FirstTokens(pin, template)|;
    if a != [] {
      forall k | 0 <= k < n && k < |a|
        ensures b[k] == a[k]
      {
        SwapEarly(pin, template, a, w, k);
      }
      FirstNotEmpty(pin, template);
      TrimmedMoved(pin, template, f, a, b, v, w);
      TrimmedParts(pin, template, a);
      var us, ws := Trimmed(pin, template, a), Trimmed(pin, template, b);
      SameFront(us, ws, a, b, n);
      SamePrefix(FirstTokens(pin, template), us, ws);
      FitMoved(pin, template, f, us, ws, v, w);
    }
  }

  lemma FirstNotEmpty(pin: Pin, template: Template)
    requires ValidTemplate(pin, template)
    ensures |FirstTokens(pin, template)| > 0
  {
    if template.Piece? && !template.gap.Value? {
      NotEmptyTokens(pin, template.text);
    }
  }

  lemma SameFront(us: seq<string>, ws: seq<string>, a: seq<string>, b: seq<string>, n: nat)
    requires |us| == |ws| == |a| == |b| > 0 && us[1..] == a[1..] && ws[1..] == b[1..] && us[0] == ws[0]
    requires forall k :: 0 <= k < n && k < |a| ==> b[k] == a[k]
    ensures forall k :: 0 <= k < n && k < |a| ==> us[k] == ws[k]
  {
    forall k | 0 <= k < n && k < |a|
      ensures us[k] == ws[k]
    {
      if k > 0 {
        assert us[k] == us[1..][k - 1] && ws[k] == ws[1..][k - 1];
      }
    }
  }

  lemma SamePrefix(l: seq<string>, a: seq<string>, b: seq<string>)
    requires |a| == |b| && forall k :: 0 <= k < |l| && k < |a| ==> a[k] == b[k]
    ensures l <= a <==> l <= b
  {
    if |l| <= |a| {
      assert l <= a <==> forall k :: 0 <= k < |l| ==> l[k] == a[k];
      assert l <= b <==> forall k :: 0 <= k < |l| ==> l[k] == b[k];
    }
  }

  /** The scans of two token lists meet the same matches. */
  ghost predicate Parallel(pin: Pin, template: Template, a: seq<string>, b: seq<string>)
    decreases |a|
  {
    && |a| == |b| && MatchTokens(pin, template, a) == MatchTokens(pin, template, b)
    && match MatchTokens(pin, template, a)
       case None => a == [] || Parallel(pin, template, a[1..], b[1..])
       case Some(h) => Parallel(pin, template, a[h.width..], b[h.width..])
  }

  lemma {:induction false} OthersParallel(pin: Pin, template: Template, f: Frame, a: seq<string>, b: seq<string>, v: string, w: string)
    requires ValidPattern(pin) && ValidTemplate(pin, template) && Compatible(pin, f, FrameOf(pin, template))
    requires Canonical(pin, a) && Moved(pin, f, a, b, v, w) && pin.matches(w)
    requires RestAvoids(pin, template, f, v) && RestAvoids(pin, template, f, w)
    requires FirstAvoids(pin, template, f, v) && FirstAvoids(pin, template, f, w)
    ensures Parallel(pin, template, a, b)
    decreases |a|
  {
    hide Shows, Refilled, Canonical, ValidPattern, Compatible, MatchTokens, RestAvoids, FirstAvoids, FrameOf, ValidTemplate;
    MatchMoved(pin, template, f, a, b, v, w);
    var n := match MatchTokens(pin, template, a) case None => 1 case Some(h) => h.width;
    if a != [] {
      CanonicalRest(pin, a, n);
      MovedRest(pin, f, a, b, v, w, n);
      OthersParallel(pin, template, f, a[n..], b[n..], v, w);
    }
  }

  lemma SwapRest(pin: Pin, template: Template, a: seq<string>, w: string)
    requires a != []
    ensures
      var n := match MatchTokens(pin, template, a) case None => 1 case Some(h) => h.width;
      n <= |a| && SwapTokens(pin, template, a, w)[n..] == SwapTokens(pin, template, a[n..], w)
  {
    hide MatchTokens, Cut, FrameOf;
  }

  lemma {:induction false} OwnParallel(pin: Pin, template: Template, a: seq<string>, v: string, w: string)
    requires ValidPattern(pin) && ValidTemplate(pin, template) && Canonical(pin, a) && pin.matches(w)
    requires Moved(pin, FrameOf(pin, template), a, SwapTokens(pin, template, a, w), v, w)
    requires RestAvoids(pin, template, FrameOf(pin, template), v) && RestAvoids(pin, template, FrameOf(pin, template), w)
    ensures Parallel(pin, template, a, SwapTokens(pin, template, a, w))
    decreases |a|
  {
    hide Shows, Refilled, Canonical, ValidPattern, MatchTokens, RestAvoids, FrameOf, ValidTemplate, SwapTokens;
    var b := SwapTokens(pin, template, a, w);
    OwnMatch(pin, template, a, v, w);
    if a != [] {
      var n := match MatchTokens(pin, template, a) case None => 1 case Some(h) => h.width;
      SwapRest(pin, template, a, w);
      CanonicalRest(pin, a, n);
      MovedRest(pin, FrameOf(pin, template), a, b, v, w, n);
      OwnParallel(pin, template, a[n..], v, w);
    }
  }

  // ------------------------------------------------------------ values and places

  /** Token k holds the value of one of the matches. */
  predicate IsSpot(pin: Pin, template: Template, tokens: seq<string>, k: int)
    decreases |tokens|
  {
    match MatchTokens(pin, template, tokens)
    case None => tokens != [] && IsSpot(pin, template, tokens[1..], k - 1)
    case Some(h) => k == h.at || IsSpot(pin, template, tokens[h.width..], k - h.width)
  }

  lemma {:induction false} SpotInside(pin: Pin, template: Template, tokens: seq<string>, k: int)
    requires ValidTemplate(pin, template) && IsSpot(pin, template, tokens, k)
    ensures 0 <= k < |tokens| && Cut(pin, FrameOf(pin, template), tokens[k]).Some?
    ensures
      var c := Cut(pin, FrameOf(pin, template), tokens[k]).value;
      ValueIn(tokens[k], c) in FoundTokens(pin, template, tokens)
    decreases |tokens|
  {
    hide MatchTokens, Cut, ValidTemplate;
    match MatchTokens(pin, template, tokens)
    case None =>
      SpotInside(pin, template, tokens[1..], k - 1);
    case Some(h) =>
      MatchValue(pin, template, tokens);
      if k != h.at {
        SpotInside(pin, template, tokens[h.width..], k - h.width);
      }
  }

  lemma MatchValue(pin: Pin, template: Template, tokens: seq<string>)
    requires ValidTemplate(pin, template) && MatchTokens(pin, template, tokens).Some?
    ensures
      var h := MatchTokens(pin, template, tokens).value;
      && 0 < h.at < h.width <= |tokens| && Cut(pin, FrameOf(pin, template), tokens[h.at]).Some?
      && FoundTokens(pin, template, tokens) ==
         [ValueIn(tokens[h.at], Cut(pin, FrameOf(pin, template), tokens[h.at]).value)] + FoundTokens(pin, template, tokens[h.width..])
  {
    hide Cut;
    MatchUnfold(pin, template, tokens);
    var us := Trimmed(pin, template, tokens);
    FirstToken(pin, template, us);
    var at := MatchTokens(pin, template, tokens).value.at;
    assert us[at] == us[1..][at - 1] == tokens[1..][at - 1] == tokens[at];
  }

  /** Substituting writes at the spots and nowhere else. */
  lemma {:induction false} SwapExactly(pin: Pin, template: Template, tokens: seq<string>, w: string, k: nat)
    requires ValidTemplate(pin, template) && k < |tokens|
    ensures SwapTokens(pin, template, tokens, w)[k] ==
      if IsSpot(pin, template, tokens, k) then Refilled(pin, FrameOf(pin, template), tokens[k], w) else tokens[k]
    decreases |tokens|
  {
    hide MatchTokens, Cut, ValidTemplate, Refilled, FrameOf;
    var n := match MatchTokens(pin, template, tokens) case None => 1 case Some(h) => h.width;
    if k >= n {
      SwapExactly(pin, template, tokens[n..], w, k - n);
      SwapRest(pin, template, tokens, w);
      assert SwapTokens(pin, template, tokens, w)[k] == SwapTokens(pin, template, tokens, w)[n..][k - n];
    } else if IsSpot(pin, template, tokens[n..], k - n) {
      SpotInside(pin, template, tokens[n..], k - n);
    }
  }

  /** When all values found are v or w, a substitution of w is a move from v to w. */
  lemma SwapIsMoved(pin: Pin, template: Template, tokens: seq<string>, v: string, w: string)
    requires ValidTemplate(pin, template)
    requires forall x :: x in FoundTokens(pin, template, tokens) ==> x == v || x == w
    ensures Moved(pin, FrameOf(pin, template), tokens, SwapTokens(pin, template, tokens, w), v, w)
  {
    hide Cut, ValidTemplate, Refilled, FrameOf, IsSpot, FoundTokens, SwapTokens;
    var f, out := FrameOf(pin, template), SwapTokens(pin, template, tokens, w);
    forall k | 0 <= k < |tokens|
      ensures out[k] == tokens[k] || (Shows(pin, f, v, tokens[k]) && out[k] == Refilled(pin, f, tokens[k], w))
    {
      SwapExactly(pin, template, tokens, w, k);
      if IsSpot(pin, template, tokens, k) {
        SpotInside(pin, template, tokens, k);
        if Shows(pin, f, w, tokens[k]) {
          RefilledSame(pin, f, tokens[k], w);
        }
      }
    }
  }

  /** Where nothing but w is found there is nothing to substitute. */
  lemma SwapSettled(pin: Pin, template: Template, tokens: seq<string>, w: string)
    requires ValidTemplate(pin, template)
    requires forall x :: x in FoundTokens(pin, template, tokens) ==> x == w
    ensures SwapTokens(pin, template, tokens, w) == tokens
  {
    hide Cut, ValidTemplate, Refilled, FrameOf, IsSpot, FoundTokens, SwapTokens;
    forall k | 0 <= k < |tokens|
      ensures SwapTokens(pin, template, tokens, w)[k] == tokens[k]
    {
      SwapExactly(pin, template, tokens, w, k);
      if IsSpot(pin, template, tokens, k) {
        SpotInside(pin, template, tokens, k);
        RefilledSame(pin, FrameOf(pin, template), tokens[k], w);
      }
    }
  }

  lemma {:induction false} ParallelSpots(pin: Pin, template: Template, a: seq<string>, b: seq<string>, k: int)
    requires Parallel(pin, template, a, b)
    ensures IsSpot(pin, template, a, k) == IsSpot(pin, template, b, k)
    decreases |a|
  {
    hide MatchTokens;
    if a != [] {
      var n := match MatchTokens(pin, template, a) case None => 1 case Some(h) => h.width;
      ParallelSpots(pin, template, a[n..], b[n..], k - n);
    }
  }

  /** What is found after a move is, one for one, what was found before, with w for some v. */
  lemma {:induction false} ParallelFound(pin: Pin, template: Template, f: Frame, a: seq<string>, b: seq<string>, v: string, w: string)
    requires ValidPattern(pin) && ValidTemplate(pin, template) && Compatible(pin, f, FrameOf(pin, template)) && pin.matches(w)
    requires Parallel(pin, template, a, b) && Moved(pin, f, a, b, v, w)
    ensures
      var x, y := FoundTokens(pin, template, a), FoundTokens(pin, template, b);
      |x| == |y| && forall k :: 0 <= k < |x| ==> y[k] == x[k] || (x[k] == v && y[k] == w)
    decreases |a|
  {
    hide MatchTokens, Cut, ValidTemplate, Refilled, FrameOf, ValidPattern, Compatible;
    if a != [] {
      var n := match MatchTokens(pin, template, a) case None => 1 case Some(h) => h.width;
      MovedRest(pin, f, a, b, v, w, n);
      ParallelFound(pin, template, f, a[n..], b[n..], v, w);
      if MatchTokens(pin, template, a).Some? {
        var at, g := MatchTokens(pin, template, a).value.at, FrameOf(pin, template);
        MatchValue(pin, template, a);
        MatchValue(pin, template, b);
        if b[at] != a[at] {
          CutMoved(pin, f, g, a[at], w);
          RefilledShows(pin, f, a[at], w);
        }
      }
    }
  }

  /** After a site has written, it finds the written value at every match. */
  lemma {:induction false} OwnFound(pin: Pin, template: Template, a: seq<string>, w: string)
    requires ValidPattern(pin) && ValidTemplate(pin, template) && pin.matches(w)
    requires Parallel(pin, template, a, SwapTokens(pin, template, a, w))
    ensures forall x :: x in FoundTokens(pin, template, SwapTokens(pin, template, a, w)) ==> x == w
    decreases |a|
  {
    hide MatchTokens, Cut, ValidTemplate, FrameOf, ValidPattern, Refilled;
    var b := SwapTokens(pin, template, a, w);
    if a != [] {
      var n := match MatchTokens(pin, template, a) case None => 1 case Some(h) => h.width;
      SwapRest(pin, template, a, w);
      OwnFound(pin, template, a[n..], w);
      if MatchTokens(pin, template, a).Some? {
        MatchValue(pin, template, a);
        MatchValue(pin, template, b);
        RefilledShows(pin, FrameOf(pin, template), a[MatchTokens(pin, template, a).value.at], w);
      }
    }
  }
}
