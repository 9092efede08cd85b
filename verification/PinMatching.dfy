/**
 Matching a pin's template on a text and on the text's tokens is one thing: the same
 places match, and the value is in the same run.
 */
module PinMatching {
  import opened Options
  import opened Pins
  import opened PinTokens

  // ------------------------------------------------------------ literals

  lemma AfterPrefix(a: string, b: string)
    ensures (a + b)[|a|..] == b && a <= a + b
  {
  }

  /** A run is a prefix of a text exactly when it is a prefix of its first token. */
  lemma RunPrefix(pin: Pin, h: string, tokens: seq<string>)
    requires Canonical(pin, tokens) && IsRun(pin, h)
    ensures h <= Flatten(tokens) <==> tokens != [] && h <= tokens[0]
  {
    hide Tokens;
    RunLengthOfTokens(pin, tokens);
    if tokens != [] {
      FlattenHead(pin, tokens);
      var s := Flatten(tokens);
      if h <= s {
        assert pin.inClass(s[0]);
        LongerRun(pin, h, s);
        assert h == s[..|tokens[0]|][..|h|];
      }
      if h <= tokens[0] {
        assert h == s[..|tokens[0]|][..|h|] == s[..|h|];
      }
    }
  }

  lemma LongerRun(pin: Pin, h: string, s: string)
    requires AllIn(pin, h) && h <= s
    ensures |h| <= RunLength(pin, s)
  {
    var n := RunLength(pin, s);
    assert forall j :: 0 <= j < |h| ==> s[j] == h[j];
  }

  /** A literal that may end in a run: all but its last run are whole tokens. */
  lemma HeadedLiteral(pin: Pin, t: string, tokens: seq<string>)
    requires Canonical(pin, tokens)
    ensures
      var b, h := BeforeOf(pin, t), HeadOf(pin, t);
      && (t <= Flatten(tokens) <==> b <= tokens && (h == "" || (|b| < |tokens| && h <= tokens[|b|])))
      && (t <= Flatten(tokens) && |b| < |tokens| ==>
            && h <= tokens[|b|]
            && |t| == |Flatten(tokens[..|b|])| + |h|
            && Flatten(tokens)[|t|..] == tokens[|b|][|h|..] + Flatten(tokens[|b| + 1..]))
  {
    hide BeforeOf, HeadOf, Tokens, Flatten;
    var b, h, s := BeforeOf(pin, t), HeadOf(pin, t), Flatten(tokens);
    BeforeParts(pin, t);
    PrefixTokens(pin, b, tokens);
    if b <= tokens {
      var rest := tokens[|b|..];
      SplitTokens(tokens, |b|);
      assert tokens[..|b|] == b;
      CanonicalRest(pin, tokens, |b|);
      DropBoth(Flatten(b), h, Flatten(rest));
      if h != "" {
        RunPrefix(pin, h, rest);
      }
      if |b| < |tokens| && h <= tokens[|b|] {
        assert rest[0] == tokens[|b|] && rest[1..] == tokens[|b| + 1..];
        FlattenFirst(rest);
        CutBoth(Flatten(b), h, rest[0], Flatten(rest[1..]));
      }
    } else {
      PrefixOfPrefix(Flatten(b), h, s);
    }
  }

  lemma FlattenFirst(l: seq<string>)
    requires l != []
    ensures Flatten(l) == l[0] + Flatten(l[1..])
  {
  }

  lemma PrefixOfPrefix(b: string, h: string, s: string)
    ensures b + h <= s ==> b <= s
  {
    if b + h <= s {
      assert s[..|b|] == s[..|b + h|][..|b|] == b;
    }
  }

  lemma CutBoth(b: string, h: string, t: string, r: string)
    requires h <= t
    ensures (b + (t + r))[|b| + |h|..] == t[|h|..] + r
  {
    assert (b + (t + r))[|b| + |h|..] == (t + r)[|h|..];
  }

  // ------------------------------------------------------------ gaps

  predicate Takes(pin: Pin, gap: Gap, rest: Template, s: string, n: nat)
    requires n <= |s|
  {
    InGap(pin, gap, s[..n]) && Fit(pin, rest, s[n..]).Some?
  }

  /** When only one length of a gap can work, greediness does not matter. */
  lemma {:induction false} OnlyLength(pin: Pin, gap: Gap, rest: Template, s: string, n: nat, k: nat)
    requires n <= |s| && k <= n
    requires forall m: nat :: m <= n && m != k ==> !Takes(pin, gap, rest, s, m)
    ensures FitGap(pin, gap, rest, s, n) ==
      if Takes(pin, gap, rest, s, k) then
        var h := Shifted(Fit(pin, rest, s[k..]).value, k);
        Some(if gap.Value? then Hit(0, k, h.end) else h)
      else None
    decreases n
  {
    hide Fit, InGap;
    if n > k {
      assert !Takes(pin, gap, rest, s, n);
      OnlyLength(pin, gap, rest, s, n - 1, k);
    } else {
      NoneTakes(pin, gap, rest, s, n);
    }
  }

  lemma {:induction false} NoneTakes(pin: Pin, gap: Gap, rest: Template, s: string, n: nat)
    requires n <= |s| && forall m: nat :: m < n ==> !Takes(pin, gap, rest, s, m)
    ensures !Takes(pin, gap, rest, s, n) ==> FitGap(pin, gap, rest, s, n) == None
    ensures Takes(pin, gap, rest, s, n) ==>
      FitGap(pin, gap, rest, s, n) ==
      Some(var h := Shifted(Fit(pin, rest, s[n..]).value, n); if gap.Value? then Hit(0, n, h.end) else h)
    decreases n
  {
    hide Fit, InGap;
    if n > 0 {
      assert !Takes(pin, gap, rest, s, n - 1);
      NoneTakes(pin, gap, rest, s, n - 1);
    }
  }

  /** The gap's tokens are the longest stretch of the gap's characters. */
  lemma {:induction false} GapChars(pin: Pin, gap: Gap, tokens: seq<string>)
    requires ValidPattern(pin) && !gap.Value? && Canonical(pin, tokens)
    ensures
      var s, g := Flatten(tokens), GapTokens(gap, tokens);
      GapStretch(gap, s, |Flatten(tokens[..g])|) && s[|Flatten(tokens[..g])|..] == Flatten(tokens[g..])
      && (|Flatten(tokens[..g])| == 0 <==> g == 0)
  {
    hide *;
    NothingFlat();
    EmptyStretch(gap);
    GapTokensUnfolds(gap, tokens);
    if tokens != [] {
      var g := GapTokens(gap, tokens);
      FrontToken(pin, tokens);
      if g > 0 {
        GapChars(pin, gap, tokens[1..]);
        FlattenSplit(tokens, g);
        LongerStretch(gap, tokens[0], Flatten(tokens[1..]), |Flatten(tokens[1..][..g - 1])|);
      } else {
        assert tokens[..0] == [] && tokens[0..] == tokens;
        NoStretch(pin, gap, tokens[0], Flatten(tokens));
      }
    } else {
      assert tokens[..0] == [];
    }
  }

  lemma GapTokensUnfolds(gap: Gap, tokens: seq<string>)
    ensures tokens == [] ==> GapTokens(gap, tokens) == 0
    ensures tokens != [] ==>
      GapTokens(gap, tokens) == if AllGap(gap, tokens[0]) then 1 + GapTokens(gap, tokens[1..]) else 0
  {
    hide AllGap;
  }

  lemma FrontToken(pin: Pin, tokens: seq<string>)
    requires Canonical(pin, tokens) && tokens != []
    ensures Canonical(pin, tokens[1..]) && tokens[0] != "" && (IsRun(pin, tokens[0]) || IsSep(pin, tokens[0]))
    ensures Flatten(tokens) != "" && Flatten(tokens)[0] == tokens[0][0]
  {
    TokenKinds(pin, tokens, 0);
  }

  lemma FlattenSplit(tokens: seq<string>, g: nat)
    requires 0 < g <= |tokens|
    ensures Flatten(tokens[..g]) == tokens[0] + Flatten(tokens[1..][..g - 1])
    ensures Flatten(tokens) == tokens[0] + Flatten(tokens[1..])
    ensures tokens[g..] == tokens[1..][g - 1..]
  {
    assert tokens[..g][1..] == tokens[1..][..g - 1];
  }

  predicate GapStretch(gap: Gap, s: string, n: nat) {
    n <= |s| && (forall j :: 0 <= j < n ==> GapChar(gap, s[j])) && (n < |s| ==> !GapChar(gap, s[n]))
  }

  lemma EmptyStretch(gap: Gap)
    ensures GapStretch(gap, "", 0)
  {
  }

  lemma NothingFlat()
    ensures Flatten([]) == ""
  {
  }

  lemma LongerStretch(gap: Gap, t: string, s: string, n: nat)
    requires GapStretch(gap, s, n) && AllGap(gap, t)
    ensures GapStretch(gap, t + s, |t| + n) && (t + s)[|t| + n..] == s[n..]
  {
  }

  lemma NoStretch(pin: Pin, gap: Gap, t: string, s: string)
    requires ValidPattern(pin) && !gap.Value? && s != "" && t != "" && s[0] == t[0]
    requires IsRun(pin, t) || IsSep(pin, t)
    requires !AllGap(gap, t)
    ensures GapStretch(gap, s, 0)
  {
    if IsRun(pin, t) {
      assert forall j :: 0 <= j < |t| ==> pin.inClass(t[j]);
    }
  }

  lemma GapFits(pin: Pin, gap: Gap, rest: Template, tokens: seq<string>)
    requires ValidPattern(pin) && !gap.Value? && Canonical(pin, tokens)
    requires rest.text != "" && !GapChar(gap, rest.text[0])
    ensures
      var s, g := Flatten(tokens), GapTokens(gap, tokens);
      var n := |Flatten(tokens[..g])|;
      && n <= |s| && s[n..] == Flatten(tokens[g..])
      && FitGap(pin, gap, rest, s, |s|) ==
         if (gap.Any? || g > 0) && Fit(pin, rest, Flatten(tokens[g..])).Some?
         then Some(Shifted(Fit(pin, rest, Flatten(tokens[g..])).value, n)) else None
  {
    hide Flatten, GapTokens, Canonical, ValidPattern;
    GapChars(pin, gap, tokens);
    var s, g := Flatten(tokens), GapTokens(gap, tokens);
    var n := |Flatten(tokens[..g])|;
    forall m: nat | m <= |s| && m != n
      ensures !Takes(pin, gap, rest, s, m)
    {
      if m < n {
        TextFirst(pin, rest, s[m..]);
        assert s[m..] != "" && s[m..][0] == s[m];
      } else {
        assert s[..m][n] == s[n];
      }
    }
    OnlyLength(pin, gap, rest, s, |s|, n);
    assert forall j :: 0 <= j < n ==> s[..n][j] == s[j];
  }

  lemma TextFirst(pin: Pin, template: Template, s: string)
    requires template.text != ""
    ensures Fit(pin, template, s).Some? ==> s != "" && s[0] == template.text[0]
  {
    hide FitGap;
  }

  // ------------------------------------------------------------ the value

  /** A run, or the rest of one, and what follows: where the class ends. */
  lemma RunEnds(pin: Pin, x: string, rest: seq<string>)
    requires AllIn(pin, x) && Canonical(pin, rest) && (rest != [] ==> IsSep(pin, rest[0]))
    ensures
      var s := x + Flatten(rest);
      (forall j :: 0 <= j < |x| ==> pin.inClass(s[j])) && (|x| < |s| ==> !pin.inClass(s[|x|]))
  {
    if rest != [] {
      FlattenHead(pin, rest);
    }
  }

  /** A literal that ends outside the class: a run, which may be empty, up to a first character
      outside it. */
  lemma LiteralEnds(pin: Pin, a: string)
    requires a != "" && !pin.inClass(a[|a| - 1])
    ensures
      var n := |TailOf(pin, a)|;
      n < |a| && (forall j :: 0 <= j < n ==> pin.inClass(a[j])) && !pin.inClass(a[n])
  {
    hide Flatten, TailOf, AfterOf, Canonical;
    AfterParts(pin, a);
    var tail, after := TailOf(pin, a), AfterOf(pin, a);
    FlattenHead(pin, after);
    assert a[|tail|] == Flatten(after)[0];
    assert forall j :: 0 <= j < |tail| ==> a[j] == tail[j];
  }

  lemma ValueLength(pin: Pin, a: string, x: string, rest: seq<string>, m: nat)
    requires ValidPattern(pin) && AllIn(pin, x) && Canonical(pin, rest) && (rest != [] ==> IsSep(pin, rest[0]))
    requires a != "" && !pin.inClass(a[|a| - 1]) && m <= |x + Flatten(rest)|
    ensures
      var s := x + Flatten(rest);
      pin.matches(s[..m]) && a <= s[m..] ==> 0 < m && m + |TailOf(pin, a)| == |x|
  {
    hide Flatten, TailOf, AfterOf, Tokens, Canonical;
    var s, e := x + Flatten(rest), m + |TailOf(pin, a)|;
    LiteralEnds(pin, a);
    RunEnds(pin, x, rest);
    if pin.matches(s[..m]) && a <= s[m..] {
      assert forall j :: 0 <= j < m ==> s[..m][j] == s[j];
      assert forall j :: 0 <= j < |a| ==> s[m..][j] == a[j];
      assert forall j :: 0 <= j < |a| ==> s[m + j] == s[m..][j];
      assert forall j :: m <= j < e ==> s[j] == a[j - m];
      assert s[e] == a[e - m];
    }
  }

  /** After the literal before it, the value and the literal after it: x is what that literal
      left of the value's run. */
  lemma ClosedValueFits(pin: Pin, a: string, x: string, rest: seq<string>)
    requires ValidPattern(pin) && AllIn(pin, x) && Canonical(pin, rest) && (rest != [] ==> IsSep(pin, rest[0]))
    requires a != "" && !pin.inClass(a[|a| - 1])
    ensures
      var s, tail := x + Flatten(rest), TailOf(pin, a);
      FitGap(pin, Value, End(a), s, |s|) ==
      if |tail| <= |x| && EndsWith(x, tail) && pin.matches(x[..|x| - |tail|]) && AfterOf(pin, a) <= rest
      then Some(Hit(0, |x| - |tail|, |x| - |tail| + |a|)) else None
  {
    hide *;
    var s, tail := x + Flatten(rest), TailOf(pin, a);
    var k: nat := if |tail| <= |x| then |x| - |tail| else 0;
    forall m: nat | m <= |s|
      ensures Takes(pin, Value, End(a), s, m) ==> 0 < m && m + |tail| == |x|
    {
      ValueLength(pin, a, x, rest, m);
      TakesValue(pin, a, s, m);
    }
    OnlyLength(pin, Value, End(a), s, |s|, k);
    TakesValue(pin, a, s, k);
    if |tail| <= |x| {
      ClosedAt(pin, a, x, rest);
    }
  }

  lemma TakesValue(pin: Pin, a: string, s: string, m: nat)
    requires m <= |s|
    ensures Takes(pin, Value, End(a), s, m) <==> pin.matches(s[..m]) && a <= s[m..]
    ensures a <= s[m..] ==> Fit(pin, End(a), s[m..]) == Some(Hit(|a|, |a|, |a|))
    ensures Shifted(Hit(|a|, |a|, |a|), m).end == m + |a|
  {
  }

  lemma ClosedAt(pin: Pin, a: string, x: string, rest: seq<string>)
    requires Canonical(pin, rest) && a != "" && !pin.inClass(a[|a| - 1]) && |TailOf(pin, a)| <= |x|
    ensures
      var s, tail, k := x + Flatten(rest), TailOf(pin, a), |x| - |TailOf(pin, a)|;
      && s[..k] == x[..k]
      && (a <= s[k..] <==> EndsWith(x, tail) && AfterOf(pin, a) <= rest)
  {
    hide Flatten, TailOf, AfterOf, Tokens, Canonical;
    var s, tail, k := x + Flatten(rest), TailOf(pin, a), |x| - |TailOf(pin, a)|;
    assert s[k..] == x[k..] + Flatten(rest);
    AfterParts(pin, a);
    PrefixTokens(pin, AfterOf(pin, a), rest);
    BothPrefix(tail, Flatten(AfterOf(pin, a)), x[k..], Flatten(rest));
  }

  lemma BothPrefix(a: string, b: string, x: string, y: string)
    requires |a| == |x|
    ensures a + b <= x + y <==> a == x && b <= y
  {
    assert (a + b)[..|a|] == a && (x + y)[..|a|] == x;
    DropBoth(a, b, y);
    assert a + b <= x + y ==> (x + y)[..|a + b|][..|a|] == (x + y)[..|a|];
  }

  lemma OpenValueFits(pin: Pin, x: string, rest: seq<string>)
    requires ValidPattern(pin) && pin.length.Some? && AllIn(pin, x)
    requires Canonical(pin, rest) && (rest != [] ==> IsSep(pin, rest[0]))
    ensures
      var s, n := x + Flatten(rest), pin.length.value;
      FitGap(pin, Value, End(""), s, |s|) ==
      if n <= |x| && pin.matches(x[..n]) then Some(Hit(0, n, n)) else None
  {
    hide Flatten, Canonical;
    var s, n := x + Flatten(rest), pin.length.value;
    var k: nat := if n <= |s| then n else 0;
    forall m: nat | m <= |s| && m != k
      ensures !Takes(pin, Value, End(""), s, m)
    {
      assert |s[..m]| == m;
    }
    OnlyLength(pin, Value, End(""), s, |s|, k);
    if n <= |x| {
      assert s[..n] == x[..n];
    } else if n <= |s| && pin.matches(s[..n]) {
      RunEnds(pin, x, rest);
      assert s[..n][|x|] == s[|x|];
    } else {
      assert |s[..k]| == k;
    }
  }

  // ------------------------------------------------------------ templates

  /** A match on text is a match on tokens: the same value in the same run, up to the same end. */
  predicate Located(pin: Pin, template: Template, tokens: seq<string>, th: TokenHit, h: Hit)
    requires th.at < th.width <= |tokens| && Cut(pin, FrameOf(pin, template), tokens[th.at]).Some?
  {
    var c := Cut(pin, FrameOf(pin, template), tokens[th.at]).value;
    && h.from == |Flatten(tokens[..th.at])| + c.from
    && h.to == |Flatten(tokens[..th.at])| + c.to
    && h.end == |Flatten(tokens[..th.width])| - (if FrameOf(pin, template).open then |tokens[th.at]| - c.to else 0)
  }

  predicate SameFit(pin: Pin, template: Template, tokens: seq<string>) {
    var f, m := Fit(pin, template, Flatten(tokens)), FitTokens(pin, template, tokens);
    (f.Some? <==> m.Some?) && (f.Some? ==> Located(pin, template, tokens, m.value, f.value))
  }

  /** What is left of the value's run after the literal before it. */
  lemma RestOfRun(pin: Pin, tokens: seq<string>, b: nat, h: string)
    requires Canonical(pin, tokens) && b < |tokens| && h <= tokens[b] && (h != "" ==> IsRun(pin, h))
    ensures Canonical(pin, tokens[b + 1..])
    ensures IsRun(pin, tokens[b]) ==>
      AllIn(pin, tokens[b][|h|..]) && (tokens[b + 1..] != [] ==> IsSep(pin, tokens[b + 1..][0]))
    ensures IsRun(pin, tokens[b]) || (h == "" && IsSep(pin, tokens[b]))
  {
    TokenKinds(pin, tokens, b);
    CanonicalRest(pin, tokens, b + 1);
  }

  /** A separator holds no value. */
  lemma NoValueInSep(pin: Pin, a: Template, f: Frame, t: string, rest: string)
    requires ValidPattern(pin) && IsSep(pin, t) && f.head == ""
    ensures FitGap(pin, Value, a, t + rest, |t + rest|) == None
    ensures Cut(pin, f, t) == None
  {
    var s := t + rest;
    forall n: nat | n <= |s|
      ensures !pin.matches(s[..n])
    {
      assert n > 0 ==> s[..n][0] == t[0];
    }
    forall m: nat | m <= |s| && m != 0
      ensures !Takes(pin, Value, a, s, m)
    {
    }
    OnlyLength(pin, Value, a, s, |s|, 0);
    forall n: nat | n <= |t|
      ensures !pin.matches(t[..n])
    {
      assert n > 0 ==> t[..n][0] == t[0];
    }
  }

  lemma ShortTemplate(pin: Pin, t: string, a: string)
    requires ValidTemplate(pin, Piece(t, Value, End(a)))
    ensures BeforeOf(pin, t) != [] && (if a == "" then pin.length.Some? else !pin.inClass(a[|a| - 1]))
  {
  }

  lemma ValueFits(pin: Pin, t: string, a: string, tokens: seq<string>)
    requires ValidPattern(pin) && ValidTemplate(pin, Piece(t, Value, End(a))) && Canonical(pin, tokens)
    requires BeforeOf(pin, t) <= tokens && |BeforeOf(pin, t)| < |tokens| && HeadOf(pin, t) <= tokens[|BeforeOf(pin, t)|]
    ensures
      var b, h, f := BeforeOf(pin, t), HeadOf(pin, t), FrameOf(pin, Piece(t, Value, End(a)));
      var s, c := tokens[|b|][|h|..] + Flatten(tokens[|b| + 1..]), Cut(pin, f, tokens[|b|]);
      FitGap(pin, Value, End(a), s, |s|) ==
      if c.Some? && AfterOf(pin, a) <= tokens[|b| + 1..]
      then Some(Hit(0, c.value.to - |h|, c.value.to - |h| + |a|)) else None
  {
    hide *;
    ShortTemplate(pin, t, a);
    var b, h := BeforeOf(pin, t), HeadOf(pin, t);
    var token, rest := tokens[|b|], tokens[|b| + 1..];
    BeforeParts(pin, t);
    RestOfRun(pin, tokens, |b|, h);
    if !IsRun(pin, token) {
      FrameParts(pin, t, a);
      NoValueInSep(pin, End(a), FrameOf(pin, Piece(t, Value, End(a))), token, Flatten(rest));
      assert token[0..] == token;
    } else {
      RunFits(pin, t, a, token, rest);
    }
  }

  lemma RunFits(pin: Pin, t: string, a: string, token: string, rest: seq<string>)
    requires ValidPattern(pin) && ValidTemplate(pin, Piece(t, Value, End(a))) && Canonical(pin, rest)
    requires HeadOf(pin, t) <= token && AllIn(pin, token[|HeadOf(pin, t)|..]) && (rest != [] ==> IsSep(pin, rest[0]))
    ensures
      var h, f := HeadOf(pin, t), FrameOf(pin, Piece(t, Value, End(a)));
      var s, c := token[|h|..] + Flatten(rest), Cut(pin, f, token);
      FitGap(pin, Value, End(a), s, |s|) ==
      if c.Some? && AfterOf(pin, a) <= rest
      then Some(Hit(0, c.value.to - |h|, c.value.to - |h| + |a|)) else None
  {
    hide *;
    ShortTemplate(pin, t, a);
    var x := token[|HeadOf(pin, t)|..];
    FrameParts(pin, t, a);
    CutOfRest(pin, FrameOf(pin, Piece(t, Value, End(a))), token);
    if a == "" {
      OpenValueFits(pin, x, rest);
      NoTail(pin);
    } else {
      ClosedValueFits(pin, a, x, rest);
    }
  }

  /** The cut, in terms of what the literal before the value leaves of the run. */
  lemma CutOfRest(pin: Pin, f: Frame, token: string)
    requires f.head <= token
    ensures
      var x, h := token[|f.head|..], |f.head|;
      Cut(pin, f, token) ==
      if f.open then
        if pin.length.Some? && pin.length.value <= |x| && pin.matches(x[..pin.length.value])
        then Some(Span(h, h + pin.length.value)) else None
      else if |f.tail| <= |x| && EndsWith(x, f.tail) && pin.matches(x[..|x| - |f.tail|])
      then Some(Span(h, h + (|x| - |f.tail|))) else None
  {
    var x, h := token[|f.head|..], |f.head|;
    if f.open {
      if pin.length.Some? && pin.length.value <= |x| {
        SliceOfRest(token, h, 0, pin.length.value);
      }
    } else if |f.tail| <= |x| {
      SliceOfRest(token, h, 0, |x| - |f.tail|);
      assert x[|x| - |f.tail|..] == token[|token| - |f.tail|..];
    }
  }

  lemma SliceOfRest(s: string, m: nat, i: nat, j: nat)
    requires m <= |s| && i <= j <= |s| - m
    ensures s[m + i..m + j] == s[m..][i..j]
  {
  }

  lemma NoTail(pin: Pin)
    ensures TailOf(pin, "") == "" && AfterOf(pin, "") == []
  {
  }

  /** Lengths along a match. */
  lemma MatchLengths(pin: Pin, tokens: seq<string>, b: nat, after: seq<string>)
    requires b < |tokens| && after <= tokens[b + 1..]
    ensures |Flatten(tokens[..b + 1 + |after|])| == |Flatten(tokens[..b])| + |tokens[b]| + |Flatten(after)|
  {
    var w := b + 1 + |after|;
    assert tokens[..w] == tokens[..b] + ([tokens[b]] + after);
    FlattenConcat(tokens[..b], [tokens[b]] + after);
    FlattenConcat([tokens[b]], after);
    FlattenOne(tokens[b]);
  }

  lemma FitUnfolds(pin: Pin, t: string, gap: Gap, rest: Template, s: string)
    ensures !(t <= s) ==> Fit(pin, Piece(t, gap, rest), s) == None
    ensures t <= s ==>
      var f := FitGap(pin, gap, rest, s[|t|..], |s[|t|..]|);
      Fit(pin, Piece(t, gap, rest), s) == if f.None? then None else Some(Shifted(f.value, |t|))
  {
    hide FitGap;
  }

  lemma ValueTokensUnfold(pin: Pin, t: string, a: string, tokens: seq<string>)
    ensures
      var b, after, f := BeforeOf(pin, t), AfterOf(pin, a), FrameOf(pin, Piece(t, Value, End(a)));
      FitTokens(pin, Piece(t, Value, End(a)), tokens) ==
      if b <= tokens && |b| < |tokens| && Cut(pin, f, tokens[|b|]).Some? && after <= tokens[|b| + 1..]
      then Some(TokenHit(|b|, |b| + 1 + |after|)) else None
  {
    hide BeforeOf, AfterOf, HeadOf, TailOf, Cut;
  }

  lemma ValueTemplateFits(pin: Pin, t: string, a: string, tokens: seq<string>)
    requires ValidPattern(pin) && ValidTemplate(pin, Piece(t, Value, End(a))) && Canonical(pin, tokens)
    ensures SameFit(pin, Piece(t, Value, End(a)), tokens)
  {
    hide *;
    var b, h, s := BeforeOf(pin, t), HeadOf(pin, t), Flatten(tokens);
    var template := Piece(t, Value, End(a));
    HeadedLiteral(pin, t, tokens);
    FrameParts(pin, t, a);
    FitUnfolds(pin, t, Value, End(a), s);
    ValueTokensUnfold(pin, t, a, tokens);
    if t <= s {
      if |b| < |tokens| {
        ValueFits(pin, t, a, tokens);
        if FitTokens(pin, template, tokens).Some? {
          ValueLocated(pin, t, a, tokens);
          var c := Cut(pin, FrameOf(pin, template), tokens[|b|]).value;
          ShiftedIs(c.to - |h|, c.to - |h| + |a|, |t|);
          SameFitIs(pin, template, tokens);
        } else {
          SameFitIs(pin, template, tokens);
        }
      } else {
        assert tokens == b;
        EndOfText(pin, t, a, tokens);
        SameFitIs(pin, template, tokens);
      }
    } else {
      SameFitIs(pin, template, tokens);
    }
  }

  lemma ShiftedIs(to: nat, end: nat, n: nat)
    ensures Shifted(Hit(0, to, end), n) == Hit(n, n + to, n + end)
  {
  }

  lemma SameFitIs(pin: Pin, template: Template, tokens: seq<string>)
    ensures
      var f, m := Fit(pin, template, Flatten(tokens)), FitTokens(pin, template, tokens);
      && (f.None? && m.None? ==> SameFit(pin, template, tokens))
      && (f.Some? && m.Some? && Located(pin, template, tokens, m.value, f.value) ==> SameFit(pin, template, tokens))
  {
    hide Fit, FitTokens, Located, Flatten;
  }

  lemma ValueLocated(pin: Pin, t: string, a: string, tokens: seq<string>)
    requires ValidTemplate(pin, Piece(t, Value, End(a)))
    requires BeforeOf(pin, t) <= tokens && |BeforeOf(pin, t)| < |tokens| && AfterOf(pin, a) <= tokens[|BeforeOf(pin, t)| + 1..]
    requires Cut(pin, FrameOf(pin, Piece(t, Value, End(a))), tokens[|BeforeOf(pin, t)|]).Some?
    ensures
      var b := BeforeOf(pin, t);
      var c := Cut(pin, FrameOf(pin, Piece(t, Value, End(a))), tokens[|b|]).value;
      Located(pin, Piece(t, Value, End(a)), tokens, TokenHit(|b|, |b| + 1 + |AfterOf(pin, a)|),
              Hit(|t|, |t| + c.to - |HeadOf(pin, t)|, |t| + c.to - |HeadOf(pin, t)| + |a|))
  {
    hide Flatten, Canonical, BeforeOf, HeadOf, TailOf, AfterOf, Tokens, Cut;
    var b := BeforeOf(pin, t);
    BeforeParts(pin, t);
    assert tokens[..|b|] == b;
    NoTail(pin);
    AfterParts(pin, a);
    FrameParts(pin, t, a);
    MatchLengths(pin, tokens, |b|, AfterOf(pin, a));
    EmptyFlat();
  }

  lemma EmptyFlat()
    ensures Flatten([]) == ""
  {
  }

  lemma FrameParts(pin: Pin, t: string, a: string)
    ensures
      var f := FrameOf(pin, Piece(t, Value, End(a)));
      f.head == HeadOf(pin, t) && f.tail == TailOf(pin, a) && (f.open <==> a == "")
    ensures
      var f := FrameOf(pin, Piece(t, Value, End(a)));
      forall x :: Cut(pin, f, x).Some? ==>
        && HeadOf(pin, t) <= x
        && Cut(pin, f, x).value.from == |HeadOf(pin, t)|
        && (a != "" ==> Cut(pin, f, x).value.to == |x| - |TailOf(pin, a)|)
  {
    hide HeadOf, TailOf;
  }

  /** Nothing is left for a value. */
  lemma EndOfText(pin: Pin, t: string, a: string, tokens: seq<string>)
    requires ValidPattern(pin) && t <= Flatten(tokens) && tokens == BeforeOf(pin, t) && HeadOf(pin, t) == ""
    ensures Fit(pin, Piece(t, Value, End(a)), Flatten(tokens)) == None
  {
    BeforeParts(pin, t);
    assert Flatten(tokens) == t;
    assert t[|t|..] == "";
    assert !pin.matches("");
    OnlyLength(pin, Value, End(a), "", 0, 0);
  }

  /** A literal before a gap: when its tokens are there it is there; when only the text is, it
      stops inside a run. */
  lemma LiteralBeforeGap(pin: Pin, t: string, tokens: seq<string>)
    requires Canonical(pin, tokens) && t != ""
    ensures
      var l, s := Tokens(pin, t), Flatten(tokens);
      && (l <= tokens ==> t <= s && |t| == |Flatten(tokens[..|l|])| && s[|t|..] == Flatten(tokens[|l|..]))
      && (!(l <= tokens) && t <= s ==> pin.inClass(t[|t| - 1]) && |t| < |s| && pin.inClass(s[|t|]))
  {
    hide Flatten, Canonical, BeforeOf, HeadOf, Tokens;
    var l, s := Tokens(pin, t), Flatten(tokens);
    TokensFlatten(pin, t);
    if l <= tokens {
      SplitTokens(tokens, |l|);
      assert tokens[..|l|] == l;
      AfterPrefix(t, Flatten(tokens[|l|..]));
    } else if t <= s {
      var b, h := BeforeOf(pin, t), HeadOf(pin, t);
      HeadedLiteral(pin, t, tokens);
      BeforeParts(pin, t);
      LiteralIsParts(pin, t);
      if h != "" {
        var token := tokens[|b|];
        TokenKinds(pin, tokens, |b|);
        assert h == token ==> b + [h] <= tokens;
        assert t[|t| - 1] == h[|h| - 1];
        assert s[|t|..][0] == token[|h|];
      }
    }
  }

  lemma LiteralIsParts(pin: Pin, t: string)
    ensures Tokens(pin, t) == if HeadOf(pin, t) == "" then BeforeOf(pin, t) else BeforeOf(pin, t) + [HeadOf(pin, t)]
  {
    TokensCanonical(pin, t);
    var l := Tokens(pin, t);
    if l != [] {
      assert l == l[..|l| - 1] + [l[|l| - 1]];
    }
  }

  lemma NoBlankThere(pin: Pin, rest: Template, s: string)
    requires s != "" && !Blank(s[0])
    ensures FitGap(pin, Space, rest, s, |s|) == None
  {
    forall m: nat | m <= |s| && m != 0
      ensures !Takes(pin, Space, rest, s, m)
    {
      assert s[..m][0] == s[0];
    }
    OnlyLength(pin, Space, rest, s, |s|, 0);
  }

  lemma GapTokensUnfold(pin: Pin, t: string, gap: Gap, rest: Template, tokens: seq<string>)
    requires !gap.Value?
    ensures
      FitTokens(pin, Piece(t, gap, rest), tokens) ==
      match LeadTokens(pin, t, gap, tokens)
      case None => None
      case Some(k) => Behind(FitTokens(pin, rest, tokens[k..]), k)
  {
    hide LeadTokens, Behind, FitValue;
  }

  lemma FlattenOffset(tokens: seq<string>, k: nat, m: nat)
    requires k + m <= |tokens|
    ensures |Flatten(tokens[..k + m])| == |Flatten(tokens[..k])| + |Flatten(tokens[k..][..m])|
  {
    assert tokens[..k + m] == tokens[..k] + tokens[k..][..m];
    FlattenConcat(tokens[..k], tokens[k..][..m]);
  }

  /** A match of the rest of a template, seen from its beginning. */
  lemma LocatedBehind(pin: Pin, t: string, gap: Gap, rest: Template, tokens: seq<string>, k: nat, m: TokenHit, h: Hit)
    requires !gap.Value? && k <= |tokens| && m.at < m.width <= |tokens| - k
    requires Cut(pin, FrameOf(pin, rest), tokens[k..][m.at]).Some? && Located(pin, rest, tokens[k..], m, h)
    ensures
      var m' := TokenHit(k + m.at, k + m.width);
      && Cut(pin, FrameOf(pin, Piece(t, gap, rest)), tokens[m'.at]).Some?
      && Located(pin, Piece(t, gap, rest), tokens, m', Shifted(h, |Flatten(tokens[..k])|))
  {
    hide Flatten, Cut;
    FlattenOffset(tokens, k, m.at);
    FlattenOffset(tokens, k, m.width);
  }

  lemma GapTemplateFits(pin: Pin, t: string, gap: Gap, rest: Template, tokens: seq<string>)
    requires ValidPattern(pin) && ValidTemplate(pin, Piece(t, gap, rest)) && Canonical(pin, tokens) && !gap.Value?
    requires Tokens(pin, t) <= tokens ==>
      SameFit(pin, rest, tokens[|Tokens(pin, t)| + GapTokens(gap, tokens[|Tokens(pin, t)|..])..])
    ensures SameFit(pin, Piece(t, gap, rest), tokens)
  {
    hide *;
    var l, s, template := Tokens(pin, t), Flatten(tokens), Piece(t, gap, rest);
    GapShape(pin, t, gap, rest);
    LiteralBeforeGap(pin, t, tokens);
    FitUnfolds(pin, t, gap, rest, s);
    GapTokensUnfold(pin, t, gap, rest, tokens);
    LeadIs(pin, t, gap, tokens);
    SameFitIs(pin, template, tokens);
    if l <= tokens {
      LeadThenRest(pin, t, gap, rest, tokens);
    } else if t <= s && gap.Space? {
      ClassIsNotBlank(pin, s[|t|]);
      NoBlankThere(pin, rest, s[|t|..]);
    }
  }

  lemma LeadThenRest(pin: Pin, t: string, gap: Gap, rest: Template, tokens: seq<string>)
    requires ValidPattern(pin) && ValidTemplate(pin, Piece(t, gap, rest)) && Canonical(pin, tokens) && !gap.Value?
    requires Tokens(pin, t) <= tokens
    requires SameFit(pin, rest, tokens[|Tokens(pin, t)| + GapTokens(gap, tokens[|Tokens(pin, t)|..])..])
    ensures SameFit(pin, Piece(t, gap, rest), tokens)
  {
    hide *;
    var l, s := Tokens(pin, t), Flatten(tokens);
    GapShape(pin, t, gap, rest);
    LiteralBeforeGap(pin, t, tokens);
    FitUnfolds(pin, t, gap, rest, s);
    GapTokensUnfold(pin, t, gap, rest, tokens);
    LeadIs(pin, t, gap, tokens);
    GapFitsBehind(pin, gap, rest, tokens, |l|);
    GapThenRest(pin, t, gap, rest, tokens, |l|, GapTokens(gap, tokens[|l|..]));
  }

  lemma GapFitsBehind(pin: Pin, gap: Gap, rest: Template, tokens: seq<string>, l: nat)
    requires ValidPattern(pin) && !gap.Value? && Canonical(pin, tokens) && l <= |tokens|
    requires rest.text != "" && !GapChar(gap, rest.text[0])
    ensures
      var us := tokens[l..];
      var s, g := Flatten(us), GapTokens(gap, us);
      && l + g <= |tokens|
      && FitGap(pin, gap, rest, s, |s|) ==
         if (gap.Any? || g > 0) && Fit(pin, rest, Flatten(tokens[l + g..])).Some?
         then Some(Shifted(Fit(pin, rest, Flatten(tokens[l + g..])).value, |Flatten(us[..g])|)) else None
  {
    hide *;
    CanonicalRest(pin, tokens, l);
    GapFits(pin, gap, rest, tokens[l..]);
    assert tokens[l..][GapTokens(gap, tokens[l..])..] == tokens[l + GapTokens(gap, tokens[l..])..];
  }

  lemma LeadIs(pin: Pin, t: string, gap: Gap, tokens: seq<string>)
    ensures
      var l := Tokens(pin, t);
      && (!(l <= tokens) ==> LeadTokens(pin, t, gap, tokens) == None)
      && (l <= tokens ==>
            var g := GapTokens(gap, tokens[|l|..]);
            LeadTokens(pin, t, gap, tokens) == if gap.Any? || g > 0 then Some(|l| + g) else None)
  {
    hide Tokens, GapTokens;
  }

  lemma BehindIs(m: Option<TokenHit>, k: nat)
    ensures Behind(m, k) == if m.None? then None else Some(TokenHit(k + m.value.at, k + m.value.width))
  {
  }

  lemma GapThenRest(pin: Pin, t: string, gap: Gap, rest: Template, tokens: seq<string>, l: nat, g: nat)
    requires !gap.Value? && l + g <= |tokens| && SameFit(pin, rest, tokens[l + g..])
    requires |t| == |Flatten(tokens[..l])|
    requires
      var f, n := Fit(pin, rest, Flatten(tokens[l + g..])), |Flatten(tokens[l..][..g])|;
      Fit(pin, Piece(t, gap, rest), Flatten(tokens)) ==
      if (gap.Any? || g > 0) && f.Some? then Some(Shifted(Shifted(f.value, n), |t|)) else None
    requires FitTokens(pin, Piece(t, gap, rest), tokens) ==
      if gap.Any? || g > 0 then Behind(FitTokens(pin, rest, tokens[l + g..]), l + g) else None
    ensures SameFit(pin, Piece(t, gap, rest), tokens)
  {
    hide *;
    var template := Piece(t, gap, rest);
    SameFitParts(pin, rest, tokens[l + g..]);
    SameFitIs(pin, template, tokens);
    var m, f := FitTokens(pin, rest, tokens[l + g..]), Fit(pin, rest, Flatten(tokens[l + g..]));
    BehindIs(m, l + g);
    if (gap.Any? || g > 0) && f.Some? {
      LocatedBehind(pin, t, gap, rest, tokens, l + g, m.value, f.value);
      FlattenOffset(tokens, l, g);
      ShiftedTwice(f.value, |Flatten(tokens[l..][..g])|, |t|);
    }
  }

  lemma ShiftedTwice(h: Hit, n: nat, m: nat)
    ensures Shifted(Shifted(h, n), m) == Shifted(h, m + n)
  {
  }

  lemma ClassIsNotBlank(pin: Pin, c: char)
    requires ValidPattern(pin)
    ensures pin.inClass(c) ==> !Blank(c)
  {
  }

  lemma GapShape(pin: Pin, t: string, gap: Gap, rest: Template)
    requires ValidTemplate(pin, Piece(t, gap, rest)) && !gap.Value?
    ensures t != "" && rest.text != "" && !GapChar(gap, rest.text[0]) && ValidTemplate(pin, rest)
    ensures gap.Any? ==> !pin.inClass(t[|t| - 1])
  {
    hide BeforeOf, Quoting, Blank;
    if gap.Any? {
      assert ValidTemplate(pin, Piece(t, Any, rest));
    } else {
      assert ValidTemplate(pin, Piece(t, Space, rest));
    }
  }

  lemma SameFitParts(pin: Pin, template: Template, tokens: seq<string>)
    requires SameFit(pin, template, tokens)
    ensures
      var f, m := Fit(pin, template, Flatten(tokens)), FitTokens(pin, template, tokens);
      && (f.Some? <==> m.Some?)
      && (f.Some? ==>
            && m.value.at < m.value.width <= |tokens| && Cut(pin, FrameOf(pin, template), tokens[m.value.at]).Some?
            && Located(pin, template, tokens, m.value, f.value))
  {
    hide Fit, Located, Flatten, Cut;
  }

  /** Text and tokens match alike. */
  lemma {:induction false} FitsAlike(pin: Pin, template: Template, tokens: seq<string>)
    requires ValidPattern(pin) && ValidTemplate(pin, template) && Canonical(pin, tokens)
    ensures SameFit(pin, template, tokens)
    decreases template
  {
    hide Canonical, Tokens, GapTokens, SameFit, BeforeOf, ValidPattern;
    match template
    case Piece(t, Value, rest) =>
      ValueTemplateFits(pin, t, rest.text, tokens);
    case Piece(t, gap, rest) =>
      var l := Tokens(pin, t);
      if l <= tokens {
        var k := |l| + GapTokens(gap, tokens[|l|..]);
        CanonicalRest(pin, tokens, k);
        FitsAlike(pin, rest, tokens[k..]);
      }
      GapTemplateFits(pin, t, gap, rest, tokens);
  }
}
